/**
 * When an answer is that of one state of the database: exactly which tables have to stand still
 * while queries read.
 */
module OneState {
  import opened Collections
  import opened CityHierarchy
  import opened Redis
  import opened Permissions
  import opened PermissionRuns
  import opened PermissionReads
  import opened PermissionStaleness

  /** The three kinds of rows that a query reads. */
  datatype Table = AssignmentTable | CityTable | RightTables

  ghost predicate Same(t: Table, a: Database, b: Database, q: Query) {
    match t
    case AssignmentTable => SameAssignments(a, b, q.userId)
    case CityTable => SameChildren(a, b)
    case RightTables => SameRights(a, b, q)
  }

  ghost predicate SameIn(f: set<Table>, a: Database, b: Database, q: Query) {
    forall t :: t in f ==> Same(t, a, b, q)
  }

  ghost predicate SomeoneReads(s: State) {
    exists k :: 0 <= k < |s.queries| && Reading(s.queries[k].stage)
  }

  /** No change made while some query reads alters, in these tables, anything that matters for the question. */
  ghost predicate Frozen(f: set<Table>, q: Query, states: seq<State>, events: seq<Event>)
    requires Run(states, events)
  {
    forall i :: 0 <= i < |events| && events[i].Change? && SomeoneReads(states[i]) ==>
      SameIn(f, states[i].db, events[i].db, q)
  }

  ghost predicate Stays(f: set<Table>, q: Query, states: seq<State>, i: nat)
    requires i + 1 < |states|
  {
    SameIn(f, states[i].db, states[i + 1].db, q)
  }

  /** An event after which a query is reading leaves the frozen tables as they were. */
  lemma FrozenStep(f: set<Table>, q: Query, states: seq<State>, events: seq<Event>, k: nat, i: nat)
    requires Run(states, events) && Frozen(f, q, states, events) && i < |events|
    requires k < |states[i + 1].queries| && Reading(states[i + 1].queries[k].stage)
    ensures Stays(f, q, states, i)
  {
    assert states[i + 1] == Next(states[i], events[i]);
    if events[i].Change? {
      assert states[i].queries[k] == states[i + 1].queries[k];
      assert SomeoneReads(states[i]);
    } else {
      SameInReflexive(f, states[i].db, q);
    }
  }

  lemma {:induction false} StaysOn(f: set<Table>, q: Query, states: seq<State>, lo: nat, hi: nat)
    requires lo <= hi < |states| && forall i :: lo <= i < hi ==> Stays(f, q, states, i)
    ensures SameIn(f, states[lo].db, states[hi].db, q)
  {
    if lo < hi {
      StaysOn(f, q, states, lo, hi - 1);
      assert Stays(f, q, states, hi - 1);
      SameInTransitive(f, states[lo].db, states[hi - 1].db, states[hi].db, q);
    } else {
      SameInReflexive(f, states[lo].db, q);
    }
  }

  /** Between the reads of a query the frozen tables stay as they were. */
  lemma FrozenKept(f: set<Table>, q: Query, states: seq<State>, events: seq<Event>, k: nat, lo: nat, hi: nat)
    requires Run(states, events) && Frozen(f, q, states, events)
    requires lo <= hi < |states| && ReadsBetween(states, k, lo, hi)
    ensures SameIn(f, states[lo].db, states[hi].db, q)
  {
    forall i | lo <= i < hi ensures Stays(f, q, states, i) {
      FrozenStep(f, q, states, events, k, i);
    }
    StaysOn(f, q, states, lo, hi);
  }

  lemma SameInReflexive(f: set<Table>, a: Database, q: Query)
    ensures SameIn(f, a, a, q)
  {
  }

  lemma SameInTransitive(f: set<Table>, a: Database, b: Database, c: Database, q: Query)
    requires SameIn(f, a, b, q) && SameIn(f, b, c, q)
    ensures SameIn(f, a, c, q)
  {
    forall t | t in f ensures Same(t, a, c, q) {
      assert Same(t, a, b, q) && Same(t, b, c, q);
    }
  }

  /** All tables but these stand still at all times. */
  ghost predicate OnlyChanges(g: set<Table>, q: Query, events: seq<Event>, states: seq<State>)
    requires Run(states, events)
  {
    forall i :: 0 <= i < |events| && events[i].Change? ==> SameBut(g, states[i].db, events[i].db, q)
  }

  ghost predicate SameBut(g: set<Table>, a: Database, b: Database, q: Query) {
    forall t: Table :: t !in g ==> Same(t, a, b, q)
  }

  lemma FrozenBut(f: set<Table>, g: set<Table>, q: Query, states: seq<State>, events: seq<Event>)
    requires Run(states, events) && OnlyChanges(g, q, events, states) && f !! g
    ensures Frozen(f, q, states, events)
  {
    forall i | 0 <= i < |events| && events[i].Change? ensures SameIn(f, states[i].db, events[i].db, q) {
      assert SameBut(g, states[i].db, events[i].db, q);
    }
  }

  // ----- a yes -----

  /** The yes is the database's own answer at one moment of its window. */
  ghost predicate YesOfOneState(states: seq<State>, i: nat, p: Process, delay: nat)
    requires i <= |states|
  {
    p.stage.Answered? && p.stage.yes ==>
      exists j :: 0 <= j < i && Permits(states[j].db, p.q)
          && states[j].now <= p.stage.at < states[j].now + 300_000 + delay
  }

  /** Enough for a yes: assignments or rights stand still, and the cities if the question is scoped. */
  predicate EnoughForYes(q: Query, f: set<Table>) {
    (AssignmentTable in f || RightTables in f) && (Scope(q).Some? ==> CityTable in f)
  }

  lemma YesFromOneState(questions: iset<Query>, states: seq<State>, events: seq<Event>, delay: nat, i: nat, k: nat,
      f: set<Table>)
    requires RunOver(questions, states, events, delay) && KeysApart(questions) && i < |states|
      && k < |states[i].queries|
    requires Frozen(f, states[i].queries[k].q, states, events) && EnoughForYes(states[i].queries[k].q, f)
    ensures YesOfOneState(states, i, states[i].queries[k], delay)
  {
    var p := states[i].queries[k];
    if p.stage.Answered? && p.stage.yes {
      var m, k' := YesWasRead(questions, states, events, delay, i, k, p.stage.at);
      var moment := if AssignmentTable in f then LastRead(m) else m.assignments;
      forall j | m.assignments <= j <= LastRead(m)
        ensures SameIn(f, states[m.assignments].db, states[j].db, p.q)
      {
        FrozenKept(f, p.q, states, events, k', m.assignments, j);
      }
      ReadsAgree(states, m, p.q, f, moment);
      YesOf(states, m, p.q, states[moment].db);
      ClockMonotone(states, events, m.assignments, moment);
      ClockMonotone(states, events, moment, LastRead(m));
    }
  }

  /** The children read are those of any moment of the reading, when the cities stand still. */
  lemma ReadsAgree(states: seq<State>, m: Moments, q: Query, f: set<Table>, moment: nat)
    requires Ordered(m, |states|) && EnoughForYes(q, f)
    requires moment == if AssignmentTable in f then LastRead(m) else m.assignments
    requires forall j :: m.assignments <= j <= LastRead(m) ==> SameIn(f, states[m.assignments].db, states[j].db, q)
    ensures SameAssignments(states[m.assignments].db, states[moment].db, q.userId)
    ensures SameRights(states[LastRead(m)].db, states[moment].db, q)
    ensures Scope(q).Some? ==> forall j :: m.assignments <= j <= m.closure ==>
      SameChildren(states[j].db, states[moment].db)
  {
    var a, db := states[m.assignments].db, states[moment].db;
    assert AssignmentTable in f ==> Same(AssignmentTable, a, db, q);
    assert RightTables in f ==> Same(RightTables, a, states[LastRead(m)].db, q);
    if Scope(q).Some? {
      assert Same(CityTable, a, db, q);
      forall j | m.assignments <= j <= m.closure ensures SameChildren(states[j].db, db) {
        assert Same(CityTable, a, states[j].db, q);
      }
    }
  }

  ghost predicate AlwaysYesOfOneState(q: Query, f: set<Table>) {
    forall states, events, delay: nat :: RunOver(iset{q}, states, events, delay) && Frozen(f, q, states, events) ==>
      AllYesOfOneState(states, delay)
  }

  ghost predicate AllYesOfOneState(states: seq<State>, delay: nat) {
    forall i, k :: 0 <= i < |states| && 0 <= k < |states[i].queries| ==>
        YesOfOneState(states, i, states[i].queries[k], delay)
  }

  /**
   * Every yes to a question, in all runs in which these tables stand still while queries read, is
   * the answer of one state of the database, if and only if assignments or rights are among the
   * tables, and so are the cities when the question is scoped.
   */
  lemma YesOneStateIff(q: Query, f: set<Table>)
    ensures AlwaysYesOfOneState(q, f) <==> EnoughForYes(q, f)
  {
    if EnoughForYes(q, f) {
      forall states: seq<State>, events, delay: nat | RunOver(iset{q}, states, events, delay)
          && Frozen(f, q, states, events)
        ensures AllYesOfOneState(states, delay)
      {
        forall i, k | 0 <= i < |states| && 0 <= k < |states[i].queries|
          ensures YesOfOneState(states, i, states[i].queries[k], delay)
        {
          WasAsked(iset{q}, states, events, i, k);
          YesFromOneState(iset{q}, states, events, delay, i, k, f);
        }
      }
    } else {
      var states, events;
      if Scope(q).Some? && CityTable !in f {
        states, events := MovedCity(q);
        FrozenBut(f, {CityTable}, q, states, events);
      } else {
        states, events := FirstAssignment(q);
        FrozenBut(f, {AssignmentTable, RightTables}, q, states, events);
      }
      YesOfNoState(q, f, states, events);
    }
  }

  /** A run over a database that refuses the question throughout, whose last event answers yes. */
  lemma YesOfNoState(q: Query, f: set<Table>, states: seq<State>, events: seq<Event>)
    requires RunOver(iset{q}, states, events, 0) && Frozen(f, q, states, events)
    requires forall j :: 0 <= j < |states| ==> !Permits(states[j].db, q)
    requires |states[|events|].queries| > 0 && states[|events|].queries[0] == Process(q, 0, Answered(true, 0))
    ensures !AlwaysYesOfOneState(q, f)
  {
    assert !YesOfOneState(states, |events|, states[|events|].queries[0], 0);
    assert !AllYesOfOneState(states, 0);
  }

  const HERE := City("", None, true)
  const ADMIN := Assignment(CITY_ADMIN, false, true)

  /** Tables with the question's permission and the one role that holds it. */
  function Tables(q: Query, cities: Cities, assignments: map<(string, CityId), Assignment>, role: Role): Database {
    Database(cities, assignments, map["p" := Permission(q.resource, q.action, None)], {(role, "p")})
  }

  lemma RoleOfTables(q: Query, db: Database, role: Role, other: Role)
    requires db == Tables(q, db.cities, db.assignments, role) && other != SUPER_ADMIN
    ensures Constraints(db) && (HasRolePermission(db, other, q.resource, q.action) <==> other == role)
  {
    assert db.permissions["p"].resource == q.resource;
  }

  /** The state of a run of one query. */
  function Shot(q: Query, db: Database, stage: Stage): State {
    State(db, map[], 0, [Process(q, 0, stage)])
  }

  /** The steps of one query, at time 0, while the tables are `db`. */
  lemma ShotAsk(q: Query, db: Database)
    ensures Next(State(db, map[], 0, []), Ask(q)) == Shot(q, db, Begun)
  {
  }

  lemma ShotFetch(q: Query, db: Database, rows: seq<Row>)
    requires RowsOf(db, q.userId, rows)
    ensures Next(Shot(q, db, Begun), Fetch(0, rows)) == Shot(q, db, AfterFetch(q, rows))
  {
  }

  lemma ShotDescend(q: Query, db: Database, rows: seq<Row>, todo: seq<CityId>, found: set<CityId>,
      children: seq<CityId>)
    requires todo != [] && Lists(db.cities, todo[0], false, children)
    ensures var stage := Descending(rows, todo, found);
            Next(Shot(q, db, stage), Descend(0, children)) == Shot(q, db, AfterDescend(q, 0, stage, children))
  {
  }

  lemma ShotStep(q: Query, db: Database, stage: Stage)
    requires !stage.Found?
    ensures Next(Shot(q, db, stage), Step(0)) == Shot(q, db, Advance(db, 0, q, stage))
  {
  }

  function Written(q: Query, db: Database): State {
    Shot(q, db, Answered(true, 0)).(store := map[CacheKey(q) := Redis.Entry("true", Some(300_000))])
  }

  lemma ShotWrite(q: Query, db: Database)
    ensures Next(Shot(q, db, Found), Step(0)) == Written(q, db)
  {
  }

  lemma ShotChange(q: Query, db: Database, db': Database, stage: Stage)
    ensures Next(Shot(q, db, stage), Change(db')) == Shot(q, db', stage)
  {
  }

  /** A step of a run that asks only the question, over these databases, changing only the tables of `g`. */
  ghost predicate Admits(q: Query, g: set<Table>, dbs: set<Database>, s: State, e: Event, s': State) {
    && s' == Next(s, e) && s'.db in dbs
    && (e.Ask? ==> e.q == q) && (e.Change? ==> SameBut(g, s.db, e.db, q))
    && forall k :: 0 <= k < |s'.queries| ==> InTime(s'.queries[k], 0)
  }

  /** A run of such steps, by its last step. */
  ghost predicate Witness(q: Query, g: set<Table>, dbs: set<Database>, states: seq<State>, events: seq<Event>)
    decreases |events|
  {
    var n := |events|;
    && |states| == n + 1
    && if n == 0 then states[0] == State(states[0].db, map[], 0, []) && states[0].db in dbs
       else
         && Witness(q, g, dbs, states[..n], events[..n - 1])
         && Admits(q, g, dbs, states[n - 1], events[n - 1], states[n])
  }

  lemma {:induction false} WitnessRuns(q: Query, g: set<Table>, dbs: set<Database>, states: seq<State>,
      events: seq<Event>)
    requires Witness(q, g, dbs, states, events)
    ensures Run(states, events)
    decreases |events|
  {
    if events != [] {
      var n := |events|;
      WitnessRuns(q, g, dbs, states[..n], events[..n - 1]);
      assert forall i :: 0 <= i < n - 1 ==> events[i] == events[..n - 1][i];
    }
  }

  /** Every state is over one of the databases and in time, and every event is admitted. */
  lemma {:induction false} WitnessAdmits(q: Query, g: set<Table>, dbs: set<Database>, states: seq<State>,
      events: seq<Event>, i: nat)
    requires Witness(q, g, dbs, states, events) && i <= |events|
    ensures states[i].db in dbs && forall k :: 0 <= k < |states[i].queries| ==> InTime(states[i].queries[k], 0)
    ensures i < |events| ==> Admits(q, g, dbs, states[i], events[i], states[i + 1])
    decreases |events|
  {
    var n := |events|;
    if i < n {
      WitnessAdmits(q, g, dbs, states[..n], events[..n - 1], i);
    }
  }

  lemma WitnessIsRun(q: Query, g: set<Table>, dbs: set<Database>, states: seq<State>, events: seq<Event>)
    requires Witness(q, g, dbs, states, events)
    ensures RunOver(iset{q}, states, events, 0) && OnlyChanges(g, q, events, states)
    ensures forall j :: 0 <= j < |states| ==> states[j].db in dbs
  {
    WitnessRuns(q, g, dbs, states, events);
    forall i | 0 <= i < |states|
      ensures states[i].db in dbs && forall k :: 0 <= k < |states[i].queries| ==> InTime(states[i].queries[k], 0)
    {
      WitnessAdmits(q, g, dbs, states, events, i);
    }
    forall i | 0 <= i < |events|
      ensures (events[i].Ask? ==> events[i].q == q) && (events[i].Change? ==> SameBut(g, states[i].db, events[i].db, q))
    {
      WitnessAdmits(q, g, dbs, states, events, i);
    }
  }

  /** When both databases answer alike, so do all states of the run. */
  lemma WitnessOver(q: Query, g: set<Table>, a: Database, b: Database, yes: bool, states: seq<State>,
      events: seq<Event>)
    requires Witness(q, g, {a, b}, states, events)
    requires Constraints(a) && Constraints(b) && Permits(a, q) == yes && Permits(b, q) == yes
    ensures RunOver(iset{q}, states, events, 0) && OnlyChanges(g, q, events, states)
    ensures forall j :: 0 <= j < |states| ==> Constraints(states[j].db) && Permits(states[j].db, q) == yes
  {
    WitnessIsRun(q, g, {a, b}, states, events);
  }

  lemma Start(q: Query, g: set<Table>, dbs: set<Database>, db: Database)
      returns (states: seq<State>, events: seq<Event>)
    requires db in dbs
    ensures Witness(q, g, dbs, states, events) && |events| == 1 && states[1] == Shot(q, db, Begun)
  {
    states, events := [State(db, map[], 0, [])], [];
    ShotAsk(q, db);
    states, events := Extend(q, g, dbs, states, events, Ask(q), Shot(q, db, Begun));
  }

  /** One more event. */
  lemma Extend(q: Query, g: set<Table>, dbs: set<Database>, states: seq<State>, events: seq<Event>, e: Event, s: State)
      returns (states': seq<State>, events': seq<Event>)
    requires Witness(q, g, dbs, states, events) && Admits(q, g, dbs, states[|events|], e, s)
    ensures Witness(q, g, dbs, states', events') && |events'| == |events| + 1 && states'[|events'|] == s
  {
    states', events' := states + [s], events + [e];
    assert states'[..|events'|] == states && events'[..|events|] == events;
  }

  /** Before and after a citizen gets a first assignment, and citizens the right. */
  function Idling(q: Query): Database {
    Tables(q, map["c" := HERE], map[], CITY_ADMIN)
  }

  function Newly(q: Query): Database {
    Tables(q, map["c" := HERE], map[(q.userId, "c") := ADMIN], CITIZEN)
  }

  lemma BothRefuse(q: Query)
    ensures Constraints(Idling(q)) && !Permits(Idling(q), q) && RowsOf(Idling(q), q.userId, [])
    ensures Constraints(Newly(q)) && !Permits(Newly(q), q) && HasRolePermission(Newly(q), CITIZEN, q.resource, q.action)
    ensures SameBut({AssignmentTable, RightTables}, Idling(q), Newly(q), q)
  {
    var before, after := Idling(q), Newly(q);
    RoleOfTables(q, before, CITY_ADMIN, CITIZEN);
    RoleOfTables(q, after, CITIZEN, CITIZEN);
    RoleOfTables(q, after, CITIZEN, CITY_ADMIN);
    assert AssignedCities(before, q.userId) == {};
    assert (q.userId, "c") in after.assignments && "c" in AssignedCities(after, q.userId);
    assert forall c :: c in AssignedCities(after, q.userId) ==> c == "c";
  }

  lemma FirstAssignment(q: Query) returns (states: seq<State>, events: seq<Event>)
    ensures RunOver(iset{q}, states, events, 0) && OnlyChanges({AssignmentTable, RightTables}, q, events, states)
    ensures forall j :: 0 <= j < |states| ==> Constraints(states[j].db) && !Permits(states[j].db, q)
    ensures |states[|events|].queries| > 0 && states[|events|].queries[0] == Process(q, 0, Answered(true, 0))
  {
    var g, before, after := {AssignmentTable, RightTables}, Idling(q), Newly(q);
    BothRefuse(q);
    states, events := NoRows(q, g, before, after);
    WitnessOver(q, g, before, after, false, states, events);
  }

  lemma NoRows(q: Query, g: set<Table>, before: Database, after: Database)
      returns (states: seq<State>, events: seq<Event>)
    requires RowsOf(before, q.userId, []) && HasRolePermission(after, CITIZEN, q.resource, q.action)
    requires SameBut(g, before, after, q)
    ensures Witness(q, g, {before, after}, states, events)
    ensures states[|events|] == Shot(q, after, Answered(true, 0))
  {
    var dbs := {before, after};
    states, events := Start(q, g, dbs, before);
    ShotFetch(q, before, []);
    states, events := Extend(q, g, dbs, states, events, Fetch(0, []), Shot(q, before, Looking([], 0)));
    ShotChange(q, before, after, Looking([], 0));
    states, events := Extend(q, g, dbs, states, events, Change(after), Shot(q, after, Looking([], 0)));
    ShotStep(q, after, Looking([], 0));
    states, events := Extend(q, g, dbs, states, events, Step(0), Shot(q, after, Answered(true, 0)));
  }

  /** A chain of two links, of which each state of the city table has one. */
  function Root(q: Query): CityId
    requires Scope(q).Some?
  {
    Scope(q).value + "r"
  }

  function Middle(q: Query): CityId
    requires Scope(q).Some?
  {
    Scope(q).value + "m"
  }

  function Chained(q: Query, middle: Option<CityId>, scope: Option<CityId>): Database
    requires Scope(q).Some?
  {
    Tables(q, map[Root(q) := HERE, Middle(q) := City("", middle, true), Scope(q).value := City("", scope, true)],
           map[(q.userId, Root(q)) := ADMIN], CITY_ADMIN)
  }

  lemma ChainedIds(q: Query)
    requires Scope(q).Some?
    ensures Root(q) != Middle(q) && Root(q) != Scope(q).value && Middle(q) != Scope(q).value
  {
    assert Root(q)[|Scope(q).value|] == 'r' && Middle(q)[|Scope(q).value|] == 'm';
  }

  lemma HalfAChain(q: Query, middle: Option<CityId>, scope: Option<CityId>)
    requires Scope(q).Some? && (middle, scope) in {(Some(Root(q)), None), (None, Some(Middle(q)))}
    ensures var db := Chained(q, middle, scope);
            && Constraints(db) && !Permits(db, q) && RowsOf(db, q.userId, [Row(Root(q), ADMIN)])
  {
    var db := Chained(q, middle, scope);
    ChainedIds(q);
    RoleOfTables(q, db, CITY_ADMIN, CITIZEN);
    assert (q.userId, Root(q)) in db.assignments && Root(q) in AssignedCities(db, q.userId);
    assert AssignedCities(db, q.userId) == {Root(q)};
    var s := if middle == None then {Root(q)} else {Root(q), Middle(q)};
    ManagedIsLeastClosedSet(db.cities, {Root(q)}, s);
  }

  lemma ChainLinks(q: Query, middle: Option<CityId>, scope: Option<CityId>)
    requires Scope(q).Some? && (middle, scope) in {(Some(Root(q)), None), (None, Some(Middle(q)))}
    ensures var cities := Chained(q, middle, scope).cities;
            && Lists(cities, Root(q), false, if middle == None then [] else [Middle(q)])
            && Lists(cities, Middle(q), false, if scope == None then [] else [Scope(q).value])
            && Lists(cities, Scope(q).value, false, [])
  {
    ChainedIds(q);
  }

  /** The middle city is moved away from the root, and the scope below it, between the reads of their children. */
  lemma MovedCity(q: Query) returns (states: seq<State>, events: seq<Event>)
    requires Scope(q).Some?
    ensures RunOver(iset{q}, states, events, 0) && OnlyChanges({CityTable}, q, events, states)
    ensures forall j :: 0 <= j < |states| ==> Constraints(states[j].db) && !Permits(states[j].db, q)
    ensures |states[|events|].queries| > 0 && states[|events|].queries[0] == Process(q, 0, Answered(true, 0))
  {
    var before, after := Chained(q, Some(Root(q)), None), Chained(q, None, Some(Middle(q)));
    HalfAChain(q, Some(Root(q)), None);
    HalfAChain(q, None, Some(Middle(q)));
    states, events := DownTheChain(q, before, after);
    WitnessOver(q, {CityTable}, before, after, false, states, events);
  }

  lemma DownTheChain(q: Query, before: Database, after: Database) returns (states: seq<State>, events: seq<Event>)
    requires Scope(q).Some? && before == Chained(q, Some(Root(q)), None) && after == Chained(q, None, Some(Middle(q)))
    ensures Witness(q, {CityTable}, {before, after}, states, events) && states[|events|] == Written(q, after)
  {
    var g, dbs := {CityTable}, {before, after};
    var rows, middle := [Row(Root(q), ADMIN)], Descending([Row(Root(q), ADMIN)], [Middle(q)], {Middle(q)});
    OnlyCitiesDiffer(q, before, after);
    states, events := Start(q, g, dbs, before);
    states, events := UpperHalf(q, dbs, before, states, events);
    ShotChange(q, before, after, middle);
    states, events := Extend(q, g, dbs, states, events, Change(after), Shot(q, after, middle));
    states, events := LowerHalf(q, dbs, after, states, events);
    RoleOfTables(q, after, CITY_ADMIN, CITY_ADMIN);
    states, events := FindAndWrite(q, g, dbs, after, rows, states, events);
  }

  lemma FindAndWrite(q: Query, g: set<Table>, dbs: set<Database>, db: Database, rows: seq<Row>, states: seq<State>,
      events: seq<Event>)
      returns (states': seq<State>, events': seq<Event>)
    requires Witness(q, g, dbs, states, events) && states[|events|] == Shot(q, db, Looking(rows, 0)) && db in dbs
    requires rows != [] && HasRolePermission(db, rows[0].assignment.role, q.resource, q.action)
    ensures Witness(q, g, dbs, states', events') && states'[|events'|] == Written(q, db)
  {
    ShotStep(q, db, Looking(rows, 0));
    states', events' := Extend(q, g, dbs, states, events, Step(0), Shot(q, db, Found));
    ShotWrite(q, db);
    states', events' := Extend(q, g, dbs, states', events', Step(0), Written(q, db));
  }

  lemma UpperHalf(q: Query, dbs: set<Database>, db: Database, states: seq<State>, events: seq<Event>)
      returns (states': seq<State>, events': seq<Event>)
    requires Scope(q).Some? && db in dbs && db == Chained(q, Some(Root(q)), None)
    requires Witness(q, {CityTable}, dbs, states, events) && states[|events|] == Shot(q, db, Begun)
    ensures Witness(q, {CityTable}, dbs, states', events')
    ensures states'[|events'|] == Shot(q, db, Descending([Row(Root(q), ADMIN)], [Middle(q)], {Middle(q)}))
  {
    var rows, root, middle := [Row(Root(q), ADMIN)], [Root(q)], [Middle(q)];
    HalfAChain(q, Some(Root(q)), None);
    ChainLinks(q, Some(Root(q)), None);
    ShotFetch(q, db, rows);
    assert RowIds(rows) == root;
    states', events' := Extend(q, {CityTable}, dbs, states, events, Fetch(0, rows),
        Shot(q, db, Descending(rows, root, {})));
    ShotDescend(q, db, rows, root, {}, middle);
    assert middle + root[1..] == middle && {} + Elems(middle) == {Middle(q)};
    states', events' := Extend(q, {CityTable}, dbs, states', events', Descend(0, middle),
        Shot(q, db, Descending(rows, middle, {Middle(q)})));
  }

  lemma LowerHalf(q: Query, dbs: set<Database>, db: Database, states: seq<State>, events: seq<Event>)
      returns (states': seq<State>, events': seq<Event>)
    requires Scope(q).Some? && db in dbs && db == Chained(q, None, Some(Middle(q)))
    requires Witness(q, {CityTable}, dbs, states, events)
    requires states[|events|] == Shot(q, db, Descending([Row(Root(q), ADMIN)], [Middle(q)], {Middle(q)}))
    ensures Witness(q, {CityTable}, dbs, states', events') && |events'| > 0
    ensures states'[|events'|] == Shot(q, db, Looking([Row(Root(q), ADMIN)], 0))
  {
    var rows, middle, scope := [Row(Root(q), ADMIN)], [Middle(q)], [Scope(q).value];
    ChainLinks(q, None, Some(Middle(q)));
    ShotDescend(q, db, rows, middle, {Middle(q)}, scope);
    assert scope + middle[1..] == scope && {Middle(q)} + Elems(scope) == {Middle(q), Scope(q).value};
    var second := Descending(rows, scope, {Middle(q), Scope(q).value});
    states', events' := Extend(q, {CityTable}, dbs, states, events, Descend(0, scope), Shot(q, db, second));
    ShotDescend(q, db, rows, scope, {Middle(q), Scope(q).value}, []);
    assert [] + scope[1..] == [];
    states', events' := Extend(q, {CityTable}, dbs, states', events', Descend(0, []), Shot(q, db, Looking(rows, 0)));
  }

  // ----- a no -----

  /** The no is the database's own answer at one moment while the query ran. */
  ghost predicate NoOfOneState(states: seq<State>, i: nat, p: Process)
    requires i <= |states|
  {
    p.stage.Answered? && !p.stage.yes ==>
      exists j :: 0 <= j < i && !Permits(states[j].db, p.q) && p.begunAt <= states[j].now <= p.stage.at
  }

  /** Enough for a no: the rights stand still, and the cities if the question is scoped. */
  predicate EnoughForNo(q: Query, f: set<Table>) {
    RightTables in f && (Scope(q).Some? ==> CityTable in f)
  }

  lemma NoFromOneState(states: seq<State>, events: seq<Event>, i: nat, k: nat, f: set<Table>)
    requires Run(states, events) && i < |states| && k < |states[i].queries|
    requires Frozen(f, states[i].queries[k].q, states, events) && EnoughForNo(states[i].queries[k].q, f)
    ensures NoOfOneState(states, i, states[i].queries[k])
  {
    var p := states[i].queries[k];
    if p.stage.Answered? && !p.stage.yes {
      var m, hit := WasRead(states, events, i, k);
      var rows :| Refused(states, m, p, rows);
      var a := states[m.assignments].db;
      forall j | m.assignments <= j <= LastRead(m)
        ensures SameRights(states[j].db, a, p.q) && (Scope(p.q).Some? ==> SameChildren(states[j].db, a))
      {
        FrozenKept(f, p.q, states, events, k, m.assignments, j);
        assert Same(RightTables, a, states[j].db, p.q);
        assert CityTable in f ==> Same(CityTable, a, states[j].db, p.q);
      }
      NoOf(states, m, p, rows, a);
      ClockMonotone(states, events, m.assignments, m.answer);
    }
  }

  ghost predicate AllNoOfOneState(states: seq<State>) {
    forall i, k :: 0 <= i < |states| && 0 <= k < |states[i].queries| ==> NoOfOneState(states, i, states[i].queries[k])
  }

  ghost predicate AlwaysNoOfOneState(q: Query, f: set<Table>) {
    forall states, events :: Run(states, events) && Over(iset{q}, events) && Frozen(f, q, states, events) ==>
      AllNoOfOneState(states)
  }

  /**
   * Every no to a question, in all runs in which these tables stand still while queries read, is
   * the answer of one state of the database, if and only if the rights are among the tables, and so
   * are the cities when the question is scoped.
   */
  lemma NoOneStateIff(q: Query, f: set<Table>)
    ensures AlwaysNoOfOneState(q, f) <==> EnoughForNo(q, f)
  {
    if EnoughForNo(q, f) {
      forall states: seq<State>, events | Run(states, events) && Over(iset{q}, events) && Frozen(f, q, states, events)
        ensures AllNoOfOneState(states)
      {
        forall i, k | 0 <= i < |states| && 0 <= k < |states[i].queries|
          ensures NoOfOneState(states, i, states[i].queries[k])
        {
          WasAsked(iset{q}, states, events, i, k);
          NoFromOneState(states, events, i, k, f);
        }
      }
    } else {
      var states, events;
      if RightTables !in f {
        states, events := SwappedRoles(q);
        FrozenBut(f, {RightTables}, q, states, events);
      } else {
        states, events := MovedScope(q);
        FrozenBut(f, {CityTable}, q, states, events);
      }
      NoOfNoState(q, f, states, events);
    }
  }

  /** A run over a database that permits the question throughout, whose last event answers no. */
  lemma NoOfNoState(q: Query, f: set<Table>, states: seq<State>, events: seq<Event>)
    requires Run(states, events) && Over(iset{q}, events) && Frozen(f, q, states, events)
    requires forall j :: 0 <= j < |states| ==> Permits(states[j].db, q)
    requires |states[|events|].queries| > 0 && states[|events|].queries[0] == Process(q, 0, Answered(false, 0))
    ensures !AlwaysNoOfOneState(q, f)
  {
    assert !NoOfOneState(states, |events|, states[|events|].queries[0]);
    assert !AllNoOfOneState(states);
  }

  /** A user with two roles, of which one has the right. */
  function TwoRoles(q: Query, role: Role): Database {
    Tables(q, map[CityOf(q) := HERE, CityOf(q) + "x" := HERE],
           map[(q.userId, CityOf(q)) := Assignment(CITIZEN, false, true), (q.userId, CityOf(q) + "x") := ADMIN], role)
  }

  function TwoRoleRows(q: Query): seq<Row> {
    [Row(CityOf(q), Assignment(CITIZEN, false, true)), Row(CityOf(q) + "x", ADMIN)]
  }

  lemma EitherRolePermits(q: Query, role: Role)
    requires role == CITIZEN || role == CITY_ADMIN
    ensures var db := TwoRoles(q, role);
            && Constraints(db) && Permits(db, q) && RowsOf(db, q.userId, TwoRoleRows(q))
            && Lists(db.cities, CityOf(q), false, []) && Lists(db.cities, CityOf(q) + "x", false, [])
            && (forall other :: other != SUPER_ADMIN ==> (HasRolePermission(db, other, q.resource, q.action) <==>
                other == role))
  {
    var db, home, other := TwoRoles(q, role), CityOf(q), CityOf(q) + "x";
    assert other != home;
    TwoRolesAssigned(q, db);
    RoleOfTables(q, db, role, CITIZEN);
    RoleOfTables(q, db, role, CITY_ADMIN);
    ManagedIsLeastClosedSet(db.cities, {home, other}, {});
    var holder := if role == CITIZEN then home else other;
    assert HasRolePermission(db, RoleIn(db, q.userId, holder), q.resource, q.action);
  }

  lemma TwoRolesAssigned(q: Query, db: Database)
    requires db.assignments == TwoRoles(q, CITIZEN).assignments
    ensures AssignedCities(db, q.userId) == {CityOf(q), CityOf(q) + "x"} && RowsOf(db, q.userId, TwoRoleRows(q))
  {
    assert CityOf(q) != CityOf(q) + "x";
    assert (q.userId, CityOf(q)) in db.assignments && (q.userId, CityOf(q) + "x") in db.assignments;
  }

  /** The right goes from one role to the other between their lookups. */
  lemma SwappedRoles(q: Query) returns (states: seq<State>, events: seq<Event>)
    ensures RunOver(iset{q}, states, events, 0) && OnlyChanges({RightTables}, q, events, states)
    ensures forall j :: 0 <= j < |states| ==> Constraints(states[j].db) && Permits(states[j].db, q)
    ensures |states[|events|].queries| > 0 && states[|events|].queries[0] == Process(q, 0, Answered(false, 0))
  {
    var before, after := TwoRoles(q, CITY_ADMIN), TwoRoles(q, CITIZEN);
    EitherRolePermits(q, CITY_ADMIN);
    EitherRolePermits(q, CITIZEN);
    OnlyRightsDiffer(q, before, after);
    states, events := TwoLookups(q, {RightTables}, before, after, TwoRoleRows(q));
    WitnessOver(q, {RightTables}, before, after, true, states, events);
  }

  lemma TwoLookups(q: Query, g: set<Table>, before: Database, after: Database, rows: seq<Row>)
      returns (states: seq<State>, events: seq<Event>)
    requires RowsOf(before, q.userId, rows) && |rows| == 2 && SameBut(g, before, after, q)
    requires Scope(q).Some? ==> Scope(q).value == rows[0].cityId
    requires forall row :: row in rows ==> Lists(before.cities, row.cityId, false, [])
    requires !HasRolePermission(before, rows[0].assignment.role, q.resource, q.action)
    requires !HasRolePermission(after, rows[1].assignment.role, q.resource, q.action)
    ensures Witness(q, g, {before, after}, states, events)
    ensures states[|events|] == Shot(q, after, Answered(false, 0))
  {
    var dbs := {before, after};
    states, events := Start(q, g, dbs, before);
    ShotFetch(q, before, rows);
    states, events := Extend(q, g, dbs, states, events, Fetch(0, rows), Shot(q, before, AfterFetch(q, rows)));
    if Scope(q).Some? {
      states, events := TwoChildless(q, g, dbs, before, rows, states, events);
    }
    ShotStep(q, before, Looking(rows, 0));
    states, events := Extend(q, g, dbs, states, events, Step(0), Shot(q, before, Looking(rows, 1)));
    ShotChange(q, before, after, Looking(rows, 1));
    states, events := Extend(q, g, dbs, states, events, Change(after), Shot(q, after, Looking(rows, 1)));
    ShotStep(q, after, Looking(rows, 1));
    states, events := Extend(q, g, dbs, states, events, Step(0), Shot(q, after, Answered(false, 0)));
  }

  lemma TwoChildless(q: Query, g: set<Table>, dbs: set<Database>, db: Database, rows: seq<Row>,
                     states: seq<State>, events: seq<Event>)
      returns (states': seq<State>, events': seq<Event>)
    requires Witness(q, g, dbs, states, events) && states[|events|] == Shot(q, db, AfterFetch(q, rows)) && db in dbs
    requires |rows| == 2 && Scope(q) == Some(rows[0].cityId)
    requires forall row :: row in rows ==> Lists(db.cities, row.cityId, false, [])
    ensures Witness(q, g, dbs, states', events') && states'[|events'|] == Shot(q, db, Looking(rows, 0))
  {
    var first, second := rows[0].cityId, rows[1].cityId;
    assert RowIds(rows) == [first, second] && rows[0] in rows && rows[1] in rows;
    ShotDescend(q, db, rows, [first, second], {}, []);
    assert [] + [first, second][1..] == [second] && {} + Elems<CityId>([]) == {};
    states', events' := Extend(q, g, dbs, states, events, Descend(0, []), Shot(q, db, Descending(rows, [second], {})));
    ShotDescend(q, db, rows, [second], {}, []);
    assert [] + [second][1..] == [];
    states', events' := Extend(q, g, dbs, states', events', Descend(0, []), Shot(q, db, Looking(rows, 0)));
  }

  /** A user with two cities, of which one has the scope below it. */
  function TwoCities(q: Query, parent: CityId): Database
    requires Scope(q).Some?
  {
    Tables(q, map[Root(q) := HERE, Middle(q) := HERE, Scope(q).value := City("", Some(parent), true)],
           map[(q.userId, Root(q)) := ADMIN, (q.userId, Middle(q)) := ADMIN], CITY_ADMIN)
  }

  function TwoCityRows(q: Query): seq<Row>
    requires Scope(q).Some?
  {
    [Row(Root(q), ADMIN), Row(Middle(q), ADMIN)]
  }

  lemma EitherCityPermits(q: Query, parent: CityId)
    requires Scope(q).Some? && (parent == Root(q) || parent == Middle(q))
    ensures var db := TwoCities(q, parent);
            && Constraints(db) && Permits(db, q) && RowsOf(db, q.userId, TwoCityRows(q))
            && Lists(db.cities, if parent == Root(q) then Middle(q) else Root(q), false, [])
  {
    var db, x := TwoCities(q, parent), Scope(q).value;
    TwoCitiesApart(q);
    TwoCitiesAssigned(q, db);
    RoleOfTables(q, db, CITY_ADMIN, CITY_ADMIN);
    ManagedIsLeastClosedSet(db.cities, {Root(q), Middle(q)}, {});
    assert IsActiveChild(db.cities, parent, x);
    assert HasRolePermission(db, RoleIn(db, q.userId, Root(q)), q.resource, q.action);
  }

  lemma TwoCitiesAssigned(q: Query, db: Database)
    requires Scope(q).Some? && db.assignments == map[(q.userId, Root(q)) := ADMIN, (q.userId, Middle(q)) := ADMIN]
    ensures AssignedCities(db, q.userId) == {Root(q), Middle(q)} && RowsOf(db, q.userId, TwoCityRows(q))
  {
    ChainedIds(q);
    assert (q.userId, Root(q)) in db.assignments && (q.userId, Middle(q)) in db.assignments;
  }

  lemma TwoCitiesApart(q: Query)
    requires Scope(q).Some?
    ensures Root(q) != Middle(q) && Scope(q).value !in RowCities(TwoCityRows(q))
  {
    ChainedIds(q);
  }

  /** The scope is moved from below the second city to below the first, between the reads of their children. */
  lemma MovedScope(q: Query) returns (states: seq<State>, events: seq<Event>)
    requires Scope(q).Some?
    ensures RunOver(iset{q}, states, events, 0) && OnlyChanges({CityTable}, q, events, states)
    ensures forall j :: 0 <= j < |states| ==> Constraints(states[j].db) && Permits(states[j].db, q)
    ensures |states[|events|].queries| > 0 && states[|events|].queries[0] == Process(q, 0, Answered(false, 0))
  {
    var before, after := TwoCities(q, Middle(q)), TwoCities(q, Root(q));
    EitherCityPermits(q, Middle(q));
    EitherCityPermits(q, Root(q));
    OnlyCitiesDiffer(q, before, after);
    TwoCitiesApart(q);
    states, events := TwoReads(q, {CityTable}, before, after, TwoCityRows(q));
    WitnessOver(q, {CityTable}, before, after, true, states, events);
  }

  lemma OnlyCitiesDiffer(q: Query, a: Database, b: Database)
    requires a == b.(cities := a.cities)
    ensures SameBut({CityTable}, a, b, q)
  {
  }

  lemma OnlyRightsDiffer(q: Query, a: Database, b: Database)
    requires a == b.(rolePermissions := a.rolePermissions)
    ensures SameBut({RightTables}, a, b, q)
  {
  }

  lemma TwoReads(q: Query, g: set<Table>, before: Database, after: Database, rows: seq<Row>)
      returns (states: seq<State>, events: seq<Event>)
    requires RowsOf(before, q.userId, rows) && |rows| == 2 && SameBut(g, before, after, q)
    requires Scope(q).Some? && Scope(q).value !in RowCities(rows)
    requires Lists(before.cities, rows[0].cityId, false, []) && Lists(after.cities, rows[1].cityId, false, [])
    ensures Witness(q, g, {before, after}, states, events)
    ensures states[|events|] == Shot(q, after, Answered(false, 0))
  {
    var dbs, first, second := {before, after}, rows[0].cityId, rows[1].cityId;
    assert RowIds(rows) == [first, second];
    states, events := Start(q, g, dbs, before);
    ShotFetch(q, before, rows);
    states, events := Extend(q, g, dbs, states, events, Fetch(0, rows),
        Shot(q, before, Descending(rows, [first, second], {})));
    ShotDescend(q, before, rows, [first, second], {}, []);
    assert [] + [first, second][1..] == [second] && {} + Elems<CityId>([]) == {};
    var halfway := Descending(rows, [second], {});
    states, events := Extend(q, g, dbs, states, events, Descend(0, []), Shot(q, before, halfway));
    ShotChange(q, before, after, halfway);
    states, events := Extend(q, g, dbs, states, events, Change(after), Shot(q, after, halfway));
    ShotDescend(q, after, rows, [second], {}, []);
    assert [] + [second][1..] == [];
    states, events := Extend(q, g, dbs, states, events, Descend(0, []), Shot(q, after, Answered(false, 0)));
  }
}
