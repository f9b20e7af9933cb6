/**
 * How old an answer of the permission service can be. A yes may come from the cache; a no never does.
 */
module PermissionStaleness {
  import opened Collections
  import opened CityHierarchy
  import opened Redis
  import opened Permissions
  import opened PermissionRuns
  import opened PermissionReads

  ghost predicate Over(questions: iset<Query>, events: seq<Event>) {
    forall i :: 0 <= i < |events| && events[i].Ask? ==> events[i].q in questions
  }

  predicate InTime(p: Process, delay: nat) {
    p.stage.Answered? ==> p.stage.at <= p.begunAt + delay
  }

  /** Every query is answered at most `delay` milliseconds after it began. */
  ghost predicate Timely(states: seq<State>, delay: nat) {
    forall i, k :: 0 <= i < |states| && 0 <= k < |states[i].queries| ==> InTime(states[i].queries[k], delay)
  }

  /** The run asks only these questions, and answers them in time. */
  ghost predicate RunOver(questions: iset<Query>, states: seq<State>, events: seq<Event>, delay: nat) {
    Run(states, events) && Over(questions, events) && Timely(states, delay)
  }

  lemma {:induction false} WasAsked(questions: iset<Query>, states: seq<State>, events: seq<Event>, i: nat, k: nat)
    requires Run(states, events) && Over(questions, events) && i < |states| && k < |states[i].queries|
    ensures states[i].queries[k].q in questions
  {
    assert states[i] == Next(states[i - 1], events[i - 1]);
    if k < |states[i - 1].queries| {
      WasAsked(questions, states, events, i - 1, k);
    }
  }

  /** A cache entry was written by a query that had found a yes. */
  lemma {:induction false} EntryWasWritten(states: seq<State>, events: seq<Event>, i: nat, key: string)
      returns (w: nat, k: nat)
    requires Run(states, events) && i < |states| && key in states[i].store
    ensures w < i && k < |states[w].queries| && events[w] == Step(k)
    ensures states[w].queries[k].stage.Found? && CacheKey(states[w].queries[k].q) == key
    ensures states[i].store[key] == Redis.Entry("true", Some(states[w].now + 1000 * TTL_SECONDS))
  {
    var before, e := states[i - 1], events[i - 1];
    assert states[i] == Next(before, e);
    if e.Step? && e.k < |before.queries| && before.queries[e.k].stage.Found? && CacheKey(before.queries[e.k].q) == key {
      w, k := i - 1, e.k;
    } else {
      w, k := EntryWasWritten(states, events, i - 1, key);
    }
  }

  ghost predicate WasHit(states: seq<State>, i: nat, p: Process) {
    exists j :: 0 <= j < i && j < |states| && FromCache(states, j, p)
  }

  /**
   * Behind every yes is a query of the same question that did not answer from the cache; it found
   * its yes no later, and began less than 300 seconds plus the delay before.
   */
  lemma YesCameFrom(questions: iset<Query>, states: seq<State>, events: seq<Event>, delay: nat, i: nat, k: nat, at: nat)
      returns (i': nat, k': nat)
    requires RunOver(questions, states, events, delay) && KeysApart(questions)
    requires i < |states| && k < |states[i].queries| && states[i].queries[k].stage == Answered(true, at)
    ensures i' <= i && k' < |states[i'].queries|
    ensures var p := states[i'].queries[k'];
            && SameQuestion(p.q, states[i].queries[k].q) && !WasHit(states, i', p)
            && (p.stage == Answered(true, at) || (p.stage.Found? && states[i'].now <= at))
            && at < p.begunAt + 300_000 + delay
  {
    var p := states[i].queries[k];
    if WasHit(states, i, p) {
      var j :| 0 <= j < i && FromCache(states, j, p);
      i', k' := EntryWasWritten(states, events, j, CacheKey(p.q));
      WasAsked(questions, states, events, i, k);
      WasAsked(questions, states, events, i', k');
      assert !Confused(states[i'].queries[k'].q, p.q);
      ClockMonotone(states, events, i', j);
      assert states[i' + 1] == Next(states[i'], events[i']);
      assert InTime(states[i' + 1].queries[k'], delay);
    } else {
      i', k' := i, k;
      assert InTime(p, delay);
    }
  }

  /** The tables, as some query read them in turn less than `window` before `at`, say yes. */
  ghost predicate GrantedAt(states: seq<State>, m: Moments, q: Query, at: nat, window: nat)
    requires Ordered(m, |states|)
  {
    YesAsRead(states, m, q) && states[LastRead(m)].now <= at < states[m.assignments].now + window
  }

  ghost predicate GrantedWithin(states: seq<State>, i: nat, q: Query, at: nat, window: nat)
    requires i <= |states|
  {
    exists m :: Ordered(m, i) && GrantedAt(states, m, q, at, window)
  }

  /**
   * The reads behind a yes. If `k'` is the query that made them, it did nothing else in between.
   */
  lemma YesWasRead(questions: iset<Query>, states: seq<State>, events: seq<Event>, delay: nat, i: nat, k: nat, at: nat)
      returns (m: Moments, k': nat)
    requires RunOver(questions, states, events, delay) && KeysApart(questions)
    requires i < |states| && k < |states[i].queries| && states[i].queries[k].stage == Answered(true, at)
    ensures Ordered(m, i) && GrantedAt(states, m, states[i].queries[k].q, at, 300_000 + delay)
    ensures ReadsBetween(states, k', m.assignments, LastRead(m))
  {
    var i';
    i', k' := YesCameFrom(questions, states, events, delay, i, k, at);
    var p, hit := states[i'].queries[k'], None;
    m, hit := WasRead(states, events, i', k');
    SameQuestionSameReads(states, m, p.q, states[i].queries[k].q);
    ClockMonotone(states, events, LastRead(m), if p.stage.Found? then i' else m.answer);
  }

  lemma SameQuestionSameReads(states: seq<State>, m: Moments, q: Query, r: Query)
    requires Ordered(m, |states|) && SameQuestion(q, r)
    ensures YesAsRead(states, m, q) == YesAsRead(states, m, r)
  {
  }

  ghost predicate BoundedAt(states: seq<State>, i: nat, p: Process, delay: nat)
    requires i <= |states|
  {
    p.stage.Answered? && p.stage.yes ==> GrantedWithin(states, i, p.q, p.stage.at, 300_000 + delay)
  }

  /** Every yes of the run is the answer of tables read less than 300 seconds, plus the delay, before. */
  ghost predicate Bounded(states: seq<State>, delay: nat) {
    forall i, k :: 0 <= i < |states| && 0 <= k < |states[i].queries| ==>
        BoundedAt(states, i, states[i].queries[k], delay)
  }

  /**
   * Bounded staleness. In every run over questions whose keys are apart, an answer yes is the
   * answer of tables read in turn, the first of them less than 300 seconds, plus the time a query
   * takes, before.
   */
  lemma BoundedStaleness(questions: iset<Query>, states: seq<State>, events: seq<Event>, delay: nat)
    requires RunOver(questions, states, events, delay) && KeysApart(questions)
    ensures Bounded(states, delay)
  {
    forall i, k | 0 <= i < |states| && 0 <= k < |states[i].queries|
      ensures BoundedAt(states, i, states[i].queries[k], delay)
    {
      var stage := states[i].queries[k].stage;
      if stage.Answered? && stage.yes {
        var m, k' := YesWasRead(questions, states, events, delay, i, k, stage.at);
      }
    }
  }

  ghost predicate AlwaysBounded(questions: iset<Query>) {
    forall states, events, delay: nat :: RunOver(questions, states, events, delay) ==> Bounded(states, delay)
  }

  /** The bound holds in all runs over a set of questions if and only if no two different questions share a key. */
  lemma AlwaysBoundedIff(questions: iset<Query>)
    ensures AlwaysBounded(questions) <==> KeysApart(questions)
  {
    if KeysApart(questions) {
      forall states, events, delay: nat | RunOver(questions, states, events, delay)
        ensures Bounded(states, delay)
      {
        BoundedStaleness(questions, states, events, delay);
      }
    } else {
      var q, r :| q in questions && r in questions && Confused(q, r);
      ConfusedRun(questions, q, r);
    }
  }

  // ----- quiet times -----

  /** Nothing that the answer depends on differs. */
  ghost predicate SameFor(a: Database, b: Database, q: Query) {
    SameAssignments(a, b, q.userId) && (Scope(q).Some? ==> SameChildren(a, b)) && SameRights(a, b, q)
  }

  /** Throughout the window that ends at `at`, nothing that matters for the question differs from `db`. */
  ghost predicate Quiet(states: seq<State>, db: Database, q: Query, at: nat, window: nat) {
    forall j :: 0 <= j < |states| && states[j].now <= at < states[j].now + window ==> SameFor(states[j].db, db, q)
  }

  /**
   * When nothing that matters for a question has changed for 300 seconds, plus the time a query
   * takes, a yes is exact.
   */
  lemma YesIsExact(questions: iset<Query>, states: seq<State>, events: seq<Event>, delay: nat, i: nat, k: nat, at: nat,
      db: Database)
    requires RunOver(questions, states, events, delay) && KeysApart(questions)
    requires i < |states| && k < |states[i].queries| && states[i].queries[k].stage == Answered(true, at)
    requires Quiet(states, db, states[i].queries[k].q, at, 300_000 + delay)
    ensures Permits(db, states[i].queries[k].q)
  {
    var m, k' := YesWasRead(questions, states, events, delay, i, k, at);
    forall j | m.assignments <= j <= LastRead(m) ensures SameFor(states[j].db, db, states[i].queries[k].q) {
      ClockMonotone(states, events, m.assignments, j);
      ClockMonotone(states, events, j, LastRead(m));
    }
    YesOf(states, m, states[i].queries[k].q, db);
  }

  /** A no never comes from the cache: it is exact when nothing that matters has changed while the query ran. */
  lemma NoIsExact(states: seq<State>, events: seq<Event>, delay: nat, i: nat, k: nat, at: nat, db: Database)
    requires Run(states, events) && Timely(states, delay)
    requires i < |states| && k < |states[i].queries| && states[i].queries[k].stage == Answered(false, at)
    requires Quiet(states, db, states[i].queries[k].q, at, delay + 1)
    ensures !Permits(db, states[i].queries[k].q)
  {
    var p := states[i].queries[k];
    var m, hit := WasRead(states, events, i, k);
    var rows :| Refused(states, m, p, rows);
    assert InTime(p, delay);
    forall j | m.assignments <= j <= m.answer ensures SameFor(states[j].db, db, p.q) {
      ClockMonotone(states, events, m.assignments, j);
      ClockMonotone(states, events, j, m.answer);
    }
    NoOf(states, m, p, rows, db);
  }

  // ----- concrete runs -----

  /** The first query of a run over a database that grants it. */
  function Early(q: Query, stage: Stage): State {
    State(GrantingTo(q), map[], 0, [Process(q, 0, stage)])
  }

  function GrantingRow(q: Query): seq<Row> {
    [Row(CityOf(q), Assignment(CITY_ADMIN, false, true))]
  }

  /** The city has no children, so one read, or none without a scope, completes the descent. */
  lemma EarlySteps(q: Query)
    ensures var rows := GrantingRow(q);
            && Next(State(GrantingTo(q), map[], 0, []), Ask(q)) == Early(q, Begun)
            && Next(Early(q, Begun), Fetch(0, rows)) == Early(q, AfterFetch(q, rows))
            && Next(Early(q, AfterFetch(q, rows)), Descend(0, [])) == Early(q, Looking(rows, 0))
            && Next(Early(q, Looking(rows, 0)), Step(0)) == Early(q, Found)
  {
    var db, rows := GrantingTo(q), GrantingRow(q);
    GrantingReads(q);
    assert RowIds(rows) == [CityOf(q)] && rows[0] in rows;
  }

  lemma GrantingReads(q: Query)
    ensures var db := GrantingTo(q);
            && RowsOf(db, q.userId, GrantingRow(q)) && Lists(db.cities, CityOf(q), false, [])
            && HasRolePermission(db, CITY_ADMIN, q.resource, q.action)
  {
    GrantingPermits(q);
    assert GrantingTo(q).permissions["p"].resource == q.resource;
  }

  /** A granted question, asked and cached, and then another one with the same key, while the database never changes. */
  lemma AskedInTurn(q: Query, r: Query) returns (states: seq<State>, events: seq<Event>)
    requires CacheKey(q) == CacheKey(r)
    ensures Run(states, events) && Timely(states, 0)
    ensures forall i :: 0 <= i < |states| ==> states[i].db == GrantingTo(q)
    ensures forall i :: 0 <= i < |events| && events[i].Ask? ==> events[i].q == q || events[i].q == r
    ensures |states| == 7 && |states[6].queries| == 2 && states[6].queries[1] == Process(r, 0, Answered(true, 0))
  {
    var rows := GrantingRow(q);
    EarlySteps(q);
    var s0, found := State(GrantingTo(q), map[], 0, []), Early(q, Found);
    var done := Process(q, 0, Answered(true, 0));
    var written := found.(store := map[CacheKey(q) := Redis.Entry("true", Some(300_000))], queries := [done]);
    var last := written.(queries := [done, Process(r, 0, Answered(true, 0))]);
    states := [s0, Early(q, Begun), Early(q, AfterFetch(q, rows)), Early(q, Looking(rows, 0)), found, written, last];
    events := [Ask(q), Fetch(0, rows), Descend(0, []), Step(0), Step(0), Ask(r)];
    assert written == Next(found, Step(0));
    assert last == Next(written, Ask(r));
  }

  /** While the database does not change, a bounded yes is its answer. */
  lemma BoundedWhileUnchanged(states: seq<State>, db: Database, i: nat, p: Process, delay: nat)
    requires forall j :: 0 <= j < |states| ==> states[j].db == db
    requires i <= |states| && p.stage.Answered? && p.stage.yes && !Permits(db, p.q)
    ensures !BoundedAt(states, i, p, delay)
  {
    forall m | Ordered(m, i) ensures !YesAsRead(states, m, p.q) {
      if YesAsRead(states, m, p.q) {
        YesOf(states, m, p.q, db);
      }
    }
  }

  lemma ConfusedRun(questions: iset<Query>, q: Query, r: Query)
    requires q in questions && r in questions && Confused(q, r)
    ensures !AlwaysBounded(questions)
  {
    var states, events := AskedInTurn(q, r);
    ConfusedNotGranted(q, r);
    assert RunOver(questions, states, events, 0);
    BoundedWhileUnchanged(states, GrantingTo(q), 6, states[6].queries[1], 0);
    assert !Bounded(states, 0);
  }

  /** The right is withdrawn, the query writes after the delay, and the question is asked again twice. */
  function Late(q: Query, delay: nat, now: nat, asked: seq<Process>): State {
    State(GrantingTo(q).(rolePermissions := {}), map[CacheKey(q) := Redis.Entry("true", Some(delay + 300_000))], now,
          [Process(q, 0, Answered(true, delay))] + asked)
  }

  lemma LateSteps(q: Query, delay: nat)
    ensures var found, without := Early(q, Found), GrantingTo(q).(rolePermissions := {});
            && Next(found, Change(without)) == found.(db := without)
            && Next(found.(db := without), Tick(delay)) == found.(db := without, now := delay)
            && Next(found.(db := without, now := delay), Step(0)) == Late(q, delay, delay, [])
    ensures var p1 := Process(q, delay + 299_999, Answered(true, delay + 299_999));
            var p2 := Process(q, delay + 300_000, Begun);
            && Next(Late(q, delay, delay, []), Tick(299_999)) == Late(q, delay, delay + 299_999, [])
            && Next(Late(q, delay, delay + 299_999, []), Ask(q)) == Late(q, delay, delay + 299_999, [p1])
            && Next(Late(q, delay, delay + 299_999, [p1]), Tick(1)) == Late(q, delay, delay + 300_000, [p1])
            && Next(Late(q, delay, delay + 300_000, [p1]), Ask(q)) == Late(q, delay, delay + 300_000, [p1, p2])
  {
  }

  function LateStates(q: Query, delay: nat): seq<State> {
    var rows, found, without := GrantingRow(q), Early(q, Found), GrantingTo(q).(rolePermissions := {});
    var p1, p2 := Process(q, delay + 299_999, Answered(true, delay + 299_999)), Process(q, delay + 300_000, Begun);
    [State(GrantingTo(q), map[], 0, []), Early(q, Begun), Early(q, AfterFetch(q, rows)), Early(q, Looking(rows, 0)),
     found,
     found.(db := without), found.(db := without, now := delay),
     Late(q, delay, delay, []), Late(q, delay, delay + 299_999, []), Late(q, delay, delay + 299_999, [p1]),
     Late(q, delay, delay + 300_000, [p1]), Late(q, delay, delay + 300_000, [p1, p2])]
  }

  lemma LateStatesTimely(q: Query, delay: nat)
    ensures Timely(LateStates(q, delay), delay)
  {
  }

  function LateEvents(q: Query, delay: nat): seq<Event> {
    [Ask(q), Fetch(0, GrantingRow(q)), Descend(0, []), Step(0), Change(GrantingTo(q).(rolePermissions := {})),
     Tick(delay), Step(0), Tick(299_999), Ask(q), Tick(1), Ask(q)]
  }

  lemma LateRun(q: Query, delay: nat)
    ensures Run(LateStates(q, delay), LateEvents(q, delay))
  {
    EarlySteps(q);
    LateSteps(q, delay);
    var states, events := LateStates(q, delay), LateEvents(q, delay);
    forall i | 0 <= i < 11 ensures states[i + 1] == Next(states[i], events[i]) {
      assert i < 4 || (4 <= i < 7) || i >= 7;
    }
  }

  /**
   * The bound is tight for every question and every delay: a right withdrawn while a query is on
   * its way to the cache is still granted 299.999 seconds after the write, and no longer at 300.
   */
  lemma BoundIsTight(q: Query, delay: nat) returns (states: seq<State>, events: seq<Event>)
    ensures Run(states, events) && Over(iset{q}, events) && Timely(states, delay) && |states| == 12
    ensures states[4].now == 0 && forall i :: 5 <= i < 12 ==> !Permits(states[i].db, q)
    ensures |states[9].queries| == 2 && states[9].queries[1]
      == Process(q, delay + 299_999, Answered(true, delay + 299_999))
    ensures |states[11].queries| == 3 && states[11].queries[2] == Process(q, delay + 300_000, Begun)
  {
    states, events := LateStates(q, delay), LateEvents(q, delay);
    LateRun(q, delay);
    LateStatesTimely(q, delay);
    NoRightsAtAll(GrantingTo(q).(rolePermissions := {}), q);
  }

  lemma NoRightsAtAll(db: Database, q: Query)
    requires db == GrantingTo(q).(rolePermissions := {})
    ensures Constraints(db) && !Permits(db, q)
  {
    GrantingPermits(q);
    assert AssignedCities(db, q.userId) == AssignedCities(GrantingTo(q), q.userId);
  }
}
