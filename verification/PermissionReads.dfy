/** What the queries of a run have read, and what their answers say about the tables as they were read. */
module PermissionReads {
  import opened Collections
  import opened CityHierarchy
  import opened Redis
  import opened Permissions
  import opened PermissionRuns

  /**
   * `x` is one of the cities, or at some moment in lo..hi a child of one that was climbed down to
   * before that moment.
   */
  ghost predicate Climbs(states: seq<State>, cities: set<CityId>, x: CityId, lo: nat, hi: nat)
    requires hi <= |states|
    decreases hi
  {
    || x in cities
    || exists t: nat, parent ::
         lo <= t < hi && Climbs(states, cities, parent, lo, t) && IsActiveChild(states[t].db.cities, parent, x)
  }

  lemma {:induction false} ClimbsLonger(states: seq<State>, cities: set<CityId>, x: CityId, lo: nat, hi: nat, hi': nat)
    requires hi <= hi' <= |states| && Climbs(states, cities, x, lo, hi)
    ensures Climbs(states, cities, x, lo, hi')
  {
  }

  /**
   * A set that contains the cities, and at all moments the children of its members, contains all
   * that is climbed to.
   */
  lemma {:induction false} ClimbStays(states: seq<State>, cities: set<CityId>, x: CityId, lo: nat, hi: nat,
      s: set<CityId>)
    requires hi <= |states| && cities <= s && Climbs(states, cities, x, lo, hi)
    requires forall j, p, c :: lo <= j < hi && p in s && IsActiveChild(states[j].db.cities, p, c) ==> c in s
    ensures x in s
    decreases hi
  {
    if x !in cities {
      var t: nat, parent :| lo <= t < hi && Climbs(states, cities, parent, lo, t)
          && IsActiveChild(states[t].db.cities, parent, x);
      ClimbStays(states, cities, parent, lo, t, s);
    }
  }

  /**
   * The moments at which a query read the assignments, the children of each city it came to, and
   * the roles of its rows so far, and the moment of its answer; `closure` is not before any of the
   * children's.
   */
  datatype Moments = Moments(assignments: nat, children: map<CityId, nat>, closure: nat, lookups: seq<nat>, answer: nat)

  function LastRead(m: Moments): nat {
    if m.lookups == [] then m.closure else m.lookups[|m.lookups| - 1]
  }

  /** The reads are in order, and before moment `i`. */
  predicate Ordered(m: Moments, i: nat) {
    && m.assignments <= m.closure <= LastRead(m) < i
    && (forall c :: c in m.children ==> m.assignments <= m.children[c] <= m.closure)
    && forall n :: 0 <= n < |m.lookups| ==> m.closure <= m.lookups[n] <= LastRead(m)
  }

  ghost predicate RoleDenied(s: State, q: Query, role: Role) {
    !HasRolePermission(s.db, role, q.resource, q.action)
  }

  /** The rows were the user's at the first moment, after the query began. */
  ghost predicate ReadRows(states: seq<State>, m: Moments, p: Process, rows: seq<Row>)
    requires Ordered(m, |states|)
  {
    p.begunAt <= states[m.assignments].now && RowsOf(states[m.assignments].db, p.q.userId, rows)
  }

  /** A scoped query climbed down from the cities to its scope. */
  ghost predicate ReadScope(states: seq<State>, m: Moments, q: Query, cities: set<CityId>)
    requires Ordered(m, |states|)
  {
    Scope(q).Some? ==> Climbs(states, cities, Scope(q).value, m.assignments, m.closure + 1)
  }

  /** Whatever was a child of a city when the city's children were read belongs to the set. */
  ghost predicate ChildrenIn(states: seq<State>, m: Moments, s: set<CityId>)
    requires Ordered(m, |states|)
  {
    forall c, x :: c in m.children && IsActiveChild(states[m.children[c]].db.cities, c, x) ==> x in s
  }

  /**
   * All that was found was climbed to, and the children of every city that was come to have been
   * read or are still to be.
   */
  ghost predicate Explored(states: seq<State>, m: Moments, cities: set<CityId>, todo: seq<CityId>, found: set<CityId>)
    requires Ordered(m, |states|)
  {
    && (forall x :: x in found ==> Climbs(states, cities, x, m.assignments, m.closure + 1))
    && (forall c :: c in todo || c in m.children <==> c in cities + found)
    && ChildrenIn(states, m, found)
  }

  /** A set of cities without the scope, closed under children as they were when read. */
  ghost predicate ReadOutOfScope(states: seq<State>, m: Moments, q: Query, cities: set<CityId>)
    requires Ordered(m, |states|)
  {
    && Scope(q).Some? && Scope(q).value !in m.children
    && cities <= m.children.Keys && ChildrenIn(states, m, m.children.Keys)
  }

  /** The first `n` lookups all said no. */
  ghost predicate NoneOf(states: seq<State>, m: Moments, q: Query, rows: seq<Row>, n: nat)
    requires Ordered(m, |states|) && n <= |rows| && n <= |m.lookups|
  {
    forall i :: 0 <= i < n ==> RoleDenied(states[m.lookups[i]], q, rows[i].assignment.role)
  }

  /** The answer yes, by the tables as they were read: the rights at the last lookup are the ones that count. */
  ghost predicate YesAsRead(states: seq<State>, m: Moments, q: Query)
    requires Ordered(m, |states|)
  {
    var a, r := states[m.assignments].db, states[LastRead(m)].db;
    var cities := AssignedCities(a, q.userId);
    if cities == {} then HasRolePermission(r, CITIZEN, q.resource, q.action)
    else
      && ReadScope(states, m, q, cities)
      && exists c :: c in cities && HasRolePermission(r, RoleIn(a, q.userId, c), q.resource, q.action)
  }

  ghost predicate Granted(states: seq<State>, m: Moments, p: Process)
    requires Ordered(m, |states|)
  {
    p.begunAt <= states[m.assignments].now && YesAsRead(states, m, p.q)
  }

  /** The three reasons of a no: a citizen without the right, a city out of scope, or no role with the right. */
  ghost predicate Refused(states: seq<State>, m: Moments, p: Process, rows: seq<Row>)
    requires Ordered(m, |states|)
  {
    && ReadRows(states, m, p, rows)
    && if rows == [] then RoleDenied(states[LastRead(m)], p.q, CITIZEN)
       else
         || ReadOutOfScope(states, m, p.q, RowCities(rows))
         || (|m.lookups| == |rows| && NoneOf(states, m, p.q, rows, |rows|))
  }

  /** The answer fell at its moment, after the reads. */
  ghost predicate AnsweredAt(states: seq<State>, m: Moments, at: nat) {
    m.answer < |states| && Ordered(m, m.answer + 1) && states[m.answer].now == at
  }

  /** Why a query that missed the cache is where it is. */
  ghost predicate Justifies(states: seq<State>, m: Moments, p: Process)
    requires Ordered(m, |states|)
  {
    match p.stage
    case Begun => p.begunAt <= states[m.assignments].now
    case Descending(rows, todo, found) =>
      && ReadRows(states, m, p, rows) && rows != [] && Scope(p.q).Some? && m.lookups == []
      && Explored(states, m, RowCities(rows), todo, found)
    case Looking(rows, n) =>
      && ReadRows(states, m, p, rows) && |m.lookups| == n
      && (rows == [] ==> n == 0)
      && (rows != [] ==> n < |rows| && NoneOf(states, m, p.q, rows, n) && ReadScope(states, m, p.q, RowCities(rows)))
    case Found => Granted(states, m, p)
    case Answered(true, at) => AnsweredAt(states, m, at) && Granted(states, m, p)
    case Answered(false, at) => AnsweredAt(states, m, at) && exists rows :: Refused(states, m, p, rows)
  }

  /** The query was answered from the cache, when event `j` asked it. */
  ghost predicate FromCache(states: seq<State>, j: nat, p: Process)
    requires j < |states|
  {
    && Cached(states[j].store, states[j].now, p.q)
    && p.begunAt == states[j].now && p.stage == Answered(true, p.begunAt)
  }

  predicate Reading(stage: Stage) {
    stage.Descending? || stage.Looking?
  }

  /** The query was reading at all moments after `lo`, up to `hi`. */
  ghost predicate ReadsBetween(states: seq<State>, k: nat, lo: nat, hi: nat) {
    forall j :: lo < j <= hi < |states| ==> k < |states[j].queries| && Reading(states[j].queries[k].stage)
  }

  /** The last moment, up to `i`, at which a query is known to have been reading. */
  function ReadsUntil(m: Moments, p: Process, i: nat): nat {
    if p.stage.Begun? then m.assignments else if Reading(p.stage) then i else LastRead(m)
  }

  /**
   * In every run, every query was answered from the cache or is justified by its reads, between
   * which it did nothing else.
   */
  lemma {:induction false} WasRead(states: seq<State>, events: seq<Event>, i: nat, k: nat)
      returns (m: Moments, hit: Option<nat>)
    requires Run(states, events) && i < |states| && k < |states[i].queries|
    ensures Ordered(m, i)
    ensures match hit
            case Some(j) => j < i && FromCache(states, j, states[i].queries[k])
            case None =>
              && Justifies(states, m, states[i].queries[k])
              && ReadsBetween(states, k, m.assignments, ReadsUntil(m, states[i].queries[k], i))
  {
    var before, e := states[i - 1], events[i - 1];
    assert states[i] == Next(before, e);
    if e.Ask? && k == |before.queries| {
      m, hit := Moments(i - 1, map[], i - 1, [], 0), if Cached(before.store, before.now, e.q) then Some(i - 1)
          else None;
    } else {
      m, hit := WasRead(states, events, i - 1, k);
      NextMoves(before, e, k);
      if hit == None {
        ClockMonotone(states, events, m.assignments, i - 1);
        var m' := EventWasRead(states, i - 1, e, k, m);
        ReadsOn(states, i, k, m, m');
        m := m';
      }
    }
  }

  /** What becomes of a query that exists. */
  ghost function Moved(s: State, e: Event, k: nat): Process
    requires k < |s.queries|
  {
    var p := s.queries[k];
    match e
    case Fetch(j, rows) =>
      if j == k && p.stage.Begun? && RowsOf(s.db, p.q.userId, rows) then p.(stage := AfterFetch(p.q, rows)) else p
    case Descend(j, children) =>
      if j == k && CanDescend(s, k, children) then p.(stage := AfterDescend(p.q, s.now, p.stage, children)) else p
    case Step(j) => if j == k then p.(stage := Advance(s.db, s.now, p.q, p.stage)) else p
    case _ => p
  }

  lemma NextMoves(s: State, e: Event, k: nat)
    requires k < |s.queries|
    ensures k < |Next(s, e).queries| && Next(s, e).queries[k] == Moved(s, e, k)
  {
  }

  /** The reads go on: either they begin at this moment, or they were going on before. */
  ghost predicate Continues(m: Moments, p: Process, m': Moments, p': Process, i: nat) {
    if m'.assignments == m.assignments then
      if Reading(p'.stage) then Reading(p.stage) else ReadsUntil(m', p', i + 1) == ReadsUntil(m, p, i)
    else m'.assignments == i && Reading(p'.stage)
  }

  lemma ReadsOn(states: seq<State>, i: nat, k: nat, m: Moments, m': Moments)
    requires 0 < i < |states| && k < |states[i - 1].queries| && k < |states[i].queries|
    requires ReadsBetween(states, k, m.assignments, ReadsUntil(m, states[i - 1].queries[k], i - 1))
    requires Continues(m, states[i - 1].queries[k], m', states[i].queries[k], i - 1)
    ensures ReadsBetween(states, k, m'.assignments, ReadsUntil(m', states[i].queries[k], i))
  {
  }

  /** What the event at moment `i` adds to the reads of a query. */
  lemma EventWasRead(states: seq<State>, i: nat, e: Event, k: nat, m: Moments) returns (m': Moments)
    requires i < |states| && k < |states[i].queries| && Ordered(m, i) && Justifies(states, m, states[i].queries[k])
    requires states[m.assignments].now <= states[i].now
    ensures Ordered(m', i + 1) && Justifies(states, m', Moved(states[i], e, k))
    ensures Continues(m, states[i].queries[k], m', Moved(states[i], e, k), i)
  {
    var p := states[i].queries[k];
    m' := m;
    match e
    case Fetch(j, rows) =>
      if j == k && p.stage.Begun? && RowsOf(states[i].db, p.q.userId, rows) {
        m' := Moments(i, map[], i, [], 0);
        FetchWasRead(states, i, p, rows, m');
      }
    case Descend(j, children) =>
      if j == k && CanDescend(states[i], k, children) {
        m' := DescendWasRead(states, i, p, children, m);
      }
    case Step(j) =>
      if j == k {
        m' := StepWasRead(states, i, p, m);
      }
    case _ =>
  }

  lemma FetchWasRead(states: seq<State>, i: nat, p: Process, rows: seq<Row>, m: Moments)
    requires i < |states| && m == Moments(i, map[], i, [], 0)
    requires p.begunAt <= states[i].now && RowsOf(states[i].db, p.q.userId, rows)
    ensures Justifies(states, m, p.(stage := AfterFetch(p.q, rows)))
  {
    forall c ensures c in RowIds(rows) <==> c in RowCities(rows) {
      InRowIds(rows, c);
    }
  }

  /** The children of a city are read at moment `i`. */
  lemma DescendWasRead(states: seq<State>, i: nat, p: Process, children: seq<CityId>, m: Moments) returns (m': Moments)
    requires i < |states| && Ordered(m, i) && Justifies(states, m, p)
    requires p.stage.Descending? && p.stage.todo != [] && Lists(states[i].db.cities, p.stage.todo[0], false, children)
    ensures Ordered(m', i + 1) && m'.assignments == m.assignments && LastRead(m') == i
    ensures Justifies(states, m', p.(stage := AfterDescend(p.q, states[i].now, p.stage, children)))
  {
    var rows, todo, found := p.stage.rows, p.stage.todo, p.stage.found;
    m' := m.(children := m.children[todo[0] := i], closure := i, answer := i);
    var todo', found' := children + todo[1..], found + Elems(children);
    ExploredMore(states, i, RowCities(rows), todo, found, children, m, m');
    if todo' == [] {
      assert m'.children.Keys == RowCities(rows) + found';
      var p' := p.(stage := Decided(p.q, states[i].now, rows, found'));
      assert p'.stage.Answered? ==> ReadOutOfScope(states, m', p.q, RowCities(rows));
      assert p'.stage.Answered? ==> Refused(states, m', p', rows);
    }
  }

  lemma ExploredMore(states: seq<State>, i: nat, cities: set<CityId>, todo: seq<CityId>, found: set<CityId>,
                     children: seq<CityId>, m: Moments, m': Moments)
    requires i < |states| && Ordered(m, i) && m.lookups == [] && Explored(states, m, cities, todo, found)
    requires todo != [] && Lists(states[i].db.cities, todo[0], false, children)
    requires m' == m.(children := m.children[todo[0] := i], closure := i, answer := i)
    ensures Ordered(m', i + 1) && Explored(states, m', cities, children + todo[1..], found + Elems(children))
  {
    forall x | x in found + Elems(children) ensures Climbs(states, cities, x, m.assignments, i + 1) {
      ChildClimbs(states, cities, todo[0], x, m, i, found, children);
    }
    assert todo == [todo[0]] + todo[1..];
    assert forall c :: c in Elems(children) <==> c in children;
    assert forall c :: c in children + todo[1..] <==> c in children || c in todo[1..];
  }

  lemma ChildClimbs(states: seq<State>, cities: set<CityId>, parent: CityId, x: CityId, m: Moments, i: nat,
                    found: set<CityId>, children: seq<CityId>)
    requires i < |states| && Ordered(m, i) && Lists(states[i].db.cities, parent, false, children)
    requires forall y :: y in found ==> Climbs(states, cities, y, m.assignments, m.closure + 1)
    requires parent in cities + found && x in found + Elems(children)
    ensures Climbs(states, cities, x, m.assignments, i + 1)
  {
    if x in found {
      ClimbsLonger(states, cities, x, m.assignments, m.closure + 1, i + 1);
    } else {
      assert IsActiveChild(states[i].db.cities, parent, x);
      if parent in found {
        ClimbsLonger(states, cities, parent, m.assignments, m.closure + 1, i);
      }
      assert Climbs(states, cities, parent, m.assignments, i);
    }
  }

  /** A lookup or the write at moment `i`, in the query's own terms. */
  lemma StepWasRead(states: seq<State>, i: nat, p: Process, m: Moments) returns (m': Moments)
    requires i < |states| && Ordered(m, i) && Justifies(states, m, p)
    ensures Ordered(m', i + 1) && m'.assignments == m.assignments
    ensures LastRead(m') == if p.stage.Looking? then i else LastRead(m)
    ensures Justifies(states, m', p.(stage := Advance(states[i].db, states[i].now, p.q, p.stage)))
  {
    var p' := p.(stage := Advance(states[i].db, states[i].now, p.q, p.stage));
    match p.stage
    case Looking(rows, n) =>
      m' := m.(lookups := m.lookups + [i], answer := i);
      LookupWasRead(states, i, p, p', rows, n, m, m');
    case Found =>
      m' := m.(answer := i);
    case _ =>
      m' := m;
  }

  lemma RoleWasFound(states: seq<State>, m: Moments, p: Process, rows: seq<Row>, n: nat)
    requires Ordered(m, |states|) && ReadRows(states, m, p, rows) && ReadScope(states, m, p.q, RowCities(rows))
      && n < |rows|
    requires HasRolePermission(states[LastRead(m)].db, rows[n].assignment.role, p.q.resource, p.q.action)
    ensures Granted(states, m, p)
  {
    var a := states[m.assignments].db;
    ComposedRows(a, a, a, p.q.userId, rows);
    assert rows[n] in rows;
    assert HasRolePermission(states[LastRead(m)].db, RoleIn(a, p.q.userId, rows[n].cityId), p.q.resource, p.q.action);
  }

  lemma OneMoreDenied(states: seq<State>, i: nat, q: Query, rows: seq<Row>, n: nat, m: Moments, m': Moments)
    requires i < |states| && Ordered(m, i) && |m.lookups| == n < |rows| && NoneOf(states, m, q, rows, n)
    requires m' == m.(lookups := m.lookups + [i], answer := i) && Ordered(m', i + 1)
    requires RoleDenied(states[i], q, rows[n].assignment.role)
    ensures NoneOf(states, m', q, rows, n + 1)
  {
    assert forall j :: 0 <= j < n ==> m'.lookups[j] == m.lookups[j];
  }

  lemma LookupWasRead(states: seq<State>, i: nat, p: Process, p': Process, rows: seq<Row>, n: nat, m: Moments,
      m': Moments)
    requires i < |states| && Ordered(m, i) && p.stage == Looking(rows, n) && Justifies(states, m, p)
    requires p' == p.(stage := Advance(states[i].db, states[i].now, p.q, p.stage))
    requires m' == m.(lookups := m.lookups + [i], answer := i)
    ensures Ordered(m', i + 1) && Justifies(states, m', p')
  {
    var db, a := states[i].db, states[m.assignments].db;
    assert Ordered(m', i + 1) && LastRead(m') == i;
    if rows == [] {
      ComposedRows(a, a, a, p.q.userId, rows);
      assert RoleDenied(states[i], p.q, CITIZEN) ==> Refused(states, m', p', rows);
    } else if HasRolePermission(db, rows[n].assignment.role, p.q.resource, p.q.action) {
      RoleWasFound(states, m', p, rows, n);
    } else {
      OneMoreDenied(states, i, p.q, rows, n, m, m');
      assert n + 1 == |rows| ==> Refused(states, m', p', rows);
      assert ReadScope(states, m', p.q, RowCities(rows));
    }
  }

  // ----- reading unchanged tables -----

  /** The user's active assignments are the same. */
  ghost predicate SameAssignments(a: Database, b: Database, userId: string) {
    var cities := AssignedCities(a, userId);
    && cities == AssignedCities(b, userId)
    && forall c :: c in cities ==> RoleIn(a, userId, c) == RoleIn(b, userId, c)
  }

  /** Every city has the same active children. */
  ghost predicate SameChildren(a: Database, b: Database) {
    forall p, c :: IsActiveChild(a.cities, p, c) <==> IsActiveChild(b.cities, p, c)
  }

  /** The same roles have the right that the question asks for. */
  ghost predicate SameRights(a: Database, b: Database, q: Query) {
    forall role :: HasRolePermission(a, role, q.resource, q.action) <==>
        HasRolePermission(b, role, q.resource, q.action)
  }

  /** While the children of all cities are those of `db`, only its closure is climbed to. */
  lemma ClimbIsManaged(states: seq<State>, db: Database, cities: set<CityId>, x: CityId, lo: nat, hi: nat)
    requires hi <= |states| && forall j :: lo <= j < hi ==> SameChildren(states[j].db, db)
    requires Climbs(states, cities, x, lo, hi)
    ensures x in Managed(db.cities, cities)
  {
    var s := Managed(db.cities, cities);
    ManagedIsLeastClosedSet(db.cities, cities, s);
    forall j, p, c | lo <= j < hi && p in s && IsActiveChild(states[j].db.cities, p, c) ensures c in s {
      assert SameChildren(states[j].db, db);
    }
    ClimbStays(states, cities, x, lo, hi, s);
  }

  /** A yes as read is the answer of a database that agrees with what was read. */
  lemma YesOf(states: seq<State>, m: Moments, q: Query, db: Database)
    requires Ordered(m, |states|) && YesAsRead(states, m, q)
    requires SameAssignments(states[m.assignments].db, db, q.userId) && SameRights(states[LastRead(m)].db, db, q)
    requires Scope(q).Some? ==> forall j :: m.assignments <= j <= m.closure ==> SameChildren(states[j].db, db)
    ensures Permits(db, q)
  {
    var a := states[m.assignments].db;
    var cities := AssignedCities(a, q.userId);
    if cities != {} {
      var c :| c in cities && HasRolePermission(states[LastRead(m)].db, RoleIn(a, q.userId, c), q.resource, q.action);
      assert HasRolePermission(db, RoleIn(db, q.userId, c), q.resource, q.action);
      if Scope(q).Some? {
        ClimbIsManaged(states, db, cities, Scope(q).value, m.assignments, m.closure + 1);
      }
    }
  }

  /** A no as read is the answer of a database that agrees with what was read. */
  lemma NoOf(states: seq<State>, m: Moments, p: Process, rows: seq<Row>, db: Database)
    requires Ordered(m, |states|) && Refused(states, m, p, rows)
    requires SameAssignments(states[m.assignments].db, db, p.q.userId)
    requires Scope(p.q).Some? ==> forall c :: c in m.children ==> SameChildren(states[m.children[c]].db, db)
    requires SameRights(states[LastRead(m)].db, db, p.q)
    requires forall n :: 0 <= n < |m.lookups| ==> SameRights(states[m.lookups[n]].db, db, p.q)
    ensures !Permits(db, p.q)
  {
    var a := states[m.assignments].db;
    ComposedRows(a, a, a, p.q.userId, rows);
    if rows != [] {
      if ReadOutOfScope(states, m, p.q, RowCities(rows)) {
        NotManaged(states, m, p.q, RowCities(rows), db);
      } else {
        forall c | c in AssignedCities(db, p.q.userId)
          ensures !HasRolePermission(db, RoleIn(db, p.q.userId, c), p.q.resource, p.q.action)
        {
          var row := Row(c, a.assignments[(p.q.userId, c)]);
          assert row in rows;
          var n :| 0 <= n < |rows| && rows[n] == row;
          assert RoleDenied(states[m.lookups[n]], p.q, rows[n].assignment.role);
        }
      }
    }
  }

  lemma NotManaged(states: seq<State>, m: Moments, q: Query, cities: set<CityId>, db: Database)
    requires Ordered(m, |states|) && ReadOutOfScope(states, m, q, cities)
    requires forall c :: c in m.children ==> SameChildren(states[m.children[c]].db, db)
    ensures Scope(q).value !in Managed(db.cities, cities)
  {
    ManagedIsLeastClosedSet(db.cities, cities, m.children.Keys);
    forall p, c | p in m.children && IsActiveChild(db.cities, p, c) ensures c in m.children {
      assert SameChildren(states[m.children[p]].db, db);
    }
  }
}
