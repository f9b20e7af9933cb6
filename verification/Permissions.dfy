/** libs/rbac/src/permission.service.ts: role and scope decisions, and the positive-only cache. */
module Permissions {
  import opened Collections
  import opened CityHierarchy
  import opened Keys
  import opened Redis

  datatype Role = SUPER_ADMIN | CITY_ADMIN | CITIZEN

  datatype Assignment = Assignment(role: Role, canManageAdmins: bool, isActive: bool)

  datatype Permission = Permission(resource: string, action: string, description: Option<string>)

  /**
   * The tables read by the service. Assignments are unique per (user, city); permissions are keyed
   * by id; a role permission names a role and a permission id.
   */
  datatype Database = Database(
    cities: Cities,
    assignments: map<(string, CityId), Assignment>,
    permissions: map<string, Permission>,
    rolePermissions: set<(Role, string)>)

  predicate SameRight(p: Permission, q: Permission) {
    p.resource == q.resource && p.action == q.action
  }

  /** The schema's constraints: (resource, action) is unique and role permissions refer to permissions. */
  ghost predicate Constraints(db: Database) {
    && (forall p, q ::
          p in db.permissions && q in db.permissions && SameRight(db.permissions[p], db.permissions[q]) ==> p == q)
    && (forall rp :: rp in db.rolePermissions ==> rp.1 in db.permissions)
  }

  /** The cities of a user's active assignments. */
  function AssignedCities(db: Database, userId: string): set<CityId> {
    set k | k in db.assignments && k.0 == userId && db.assignments[k].isActive :: k.1
  }

  function RoleIn(db: Database, userId: string, c: CityId): Role
    requires c in AssignedCities(db, userId)
  {
    db.assignments[(userId, c)].role
  }

  /** hasRolePermission: the permission row exists and is linked to the role. */
  predicate HasRolePermission(db: Database, role: Role, resource: string, action: string) {
    role == SUPER_ADMIN ||
    exists id :: id in db.permissions && db.permissions[id].resource == resource
                 && db.permissions[id].action == action && (role, id) in db.rolePermissions
  }

  datatype Query = Query(userId: string, resource: string, action: string, cityId: Option<CityId>)

  /** The city a query is scoped to; an empty id scopes nothing. */
  function Scope(q: Query): Option<CityId> {
    if q.cityId == Some("") then None else q.cityId
  }

  /** The answer computed from the database alone. */
  ghost predicate Permits(db: Database, q: Query) {
    var cities := AssignedCities(db, q.userId);
    if cities == {} then HasRolePermission(db, CITIZEN, q.resource, q.action)
    else
      && (Scope(q).Some? ==> Scope(q).value in Managed(db.cities, cities))
      && exists c :: c in cities && HasRolePermission(db, RoleIn(db, q.userId, c), q.resource, q.action)
  }

  function CacheKey(q: Query): string {
    "permission:" + q.userId + ":" + q.resource + ":" + q.action +
    if Scope(q).Some? then ":" + Scope(q).value else ""
  }

  const TTL_SECONDS := 300

  ghost predicate Cached(store: Store<string>, now: nat, q: Query) {
    Lookup(store, now, CacheKey(q)) == Some("true")
  }

  ghost predicate Answer(db: Database, store: Store<string>, now: nat, q: Query) {
    Cached(store, now, q) || Permits(db, q)
  }

  /** A query caches its answer only when it missed, an assignment exists, and the answer is yes. */
  ghost predicate WillCache(db: Database, store: Store<string>, now: nat, q: Query) {
    !Cached(store, now, q) && AssignedCities(db, q.userId) != {} && Permits(db, q)
  }

  ghost function StoreAfter(db: Database, store: Store<string>, now: nat, q: Query): Store<string> {
    if WillCache(db, store, now, q) then Put(store, now, CacheKey(q), "true", TTL_SECONDS) else store
  }

  /** The tables as a query saw them: assignments from one moment, cities from another, rights from a third. */
  function Compose(assignments: Database, cities: Database, rights: Database): Database {
    Database(cities.cities, assignments.assignments, rights.permissions, rights.rolePermissions)
  }

  /** None of the cities is its own active descendant, so that closing over them ends. */
  ghost predicate ClosureEnds(db: Database, cities: set<CityId>) {
    forall c :: c in cities ==> !Below(db.cities, c, c)
  }

  datatype Row = Row(cityId: CityId, assignment: Assignment)

  /** The rows of getUserCityAssignments, in whatever order the database returns them. */
  ghost predicate RowsOf(db: Database, userId: string, rows: seq<Row>) {
    && NoDup(rows)
    && (forall row :: row in rows ==> row.cityId in AssignedCities(db, userId)
                                      && row.assignment == db.assignments[(userId, row.cityId)])
    && (forall c :: c in AssignedCities(db, userId) ==> Row(c, db.assignments[(userId, c)]) in rows)
  }

  method GetUserCityAssignments(db: Database, userId: string) returns (rows: seq<Row>)
    ensures RowsOf(db, userId, rows)
  {
    var todo := AssignedCities(db, userId);
    rows := [];
    while todo != {}
      invariant todo <= AssignedCities(db, userId) && NoDup(rows)
      invariant forall row :: row in rows ==> row.cityId in AssignedCities(db, userId) - todo
                                              && row.assignment == db.assignments[(userId, row.cityId)]
      invariant forall c :: c in AssignedCities(db, userId) - todo ==> Row(c, db.assignments[(userId, c)]) in rows
      decreases todo
    {
      var c :| c in todo;
      rows := rows + [Row(c, db.assignments[(userId, c)])];
      todo := todo - {c};
    }
  }

  /** The cities of the rows that satisfy `keep`. */
  function CitiesWhere(rows: seq<Row>, keep: Row -> bool): (ids: seq<CityId>)
    ensures forall c :: c in ids <==> exists row :: row in rows && keep(row) && row.cityId == c
  {
    if rows == [] then []
    else
      var rest := CitiesWhere(rows[1..], keep);
      assert forall row :: row in rows <==> row == rows[0] || row in rows[1..];
      if keep(rows[0]) then [rows[0].cityId] + rest else rest
  }

  lemma AllRowCities(db: Database, userId: string, rows: seq<Row>)
    requires RowsOf(db, userId, rows)
    ensures Elems(CitiesWhere(rows, row => true)) == AssignedCities(db, userId)
    ensures rows == [] <==> AssignedCities(db, userId) == {}
  {
    if rows != [] {
      assert rows[0] in rows;
    }
  }

  // ----- what the reads of a query decide -----

  function RowCities(rows: seq<Row>): set<CityId> {
    set row | row in rows :: row.cityId
  }

  ghost predicate ScopeHolds(db: Database, q: Query, cities: set<CityId>) {
    Scope(q).Some? ==> Scope(q).value in Managed(db.cities, cities)
  }

  lemma ComposedRows(a: Database, c: Database, r: Database, userId: string, rows: seq<Row>)
    requires RowsOf(a, userId, rows)
    ensures AssignedCities(Compose(a, c, r), userId) == AssignedCities(a, userId) == RowCities(rows)
    ensures RowsOf(Compose(a, c, r), userId, rows)
    ensures rows == [] <==> AssignedCities(a, userId) == {}
  {
    var cities := AssignedCities(a, userId);
    assert AssignedCities(Compose(a, c, r), userId) == cities;
    assert forall city :: city in cities ==> Row(city, a.assignments[(userId, city)]) in rows;
    assert rows != [] ==> rows[0] in rows;
  }

  /** A yes of some role, after the scope check, is the answer of the composed tables. */
  lemma RoleFound(a: Database, c: Database, r: Database, q: Query, rows: seq<Row>, i: nat)
    requires RowsOf(a, q.userId, rows) && ScopeHolds(c, q, RowCities(rows))
    requires i < |rows| && HasRolePermission(r, rows[i].assignment.role, q.resource, q.action)
    ensures AssignedCities(a, q.userId) != {} && Permits(Compose(a, c, r), q)
  {
    ComposedRows(a, c, r, q.userId, rows);
    SomeRowGrants(Compose(a, c, r), q.userId, rows, i, q.resource, q.action);
  }

  lemma NoRoleFound(a: Database, c: Database, r: Database, q: Query, rows: seq<Row>)
    requires RowsOf(a, q.userId, rows) && rows != []
    requires forall i :: 0 <= i < |rows| ==> !HasRolePermission(r, rows[i].assignment.role, q.resource, q.action)
    ensures !Permits(Compose(a, c, r), q)
  {
    ComposedRows(a, c, r, q.userId, rows);
    NoRowGrants(Compose(a, c, r), q.userId, rows, q.resource, q.action);
  }

  lemma OutOfScope(a: Database, c: Database, r: Database, q: Query, rows: seq<Row>)
    requires RowsOf(a, q.userId, rows) && rows != [] && !ScopeHolds(c, q, RowCities(rows))
    ensures !Permits(Compose(a, c, r), q)
  {
    ComposedRows(a, c, r, q.userId, rows);
  }

  lemma Unassigned(a: Database, c: Database, r: Database, q: Query)
    requires RowsOf(a, q.userId, [])
    ensures AssignedCities(Compose(a, c, r), q.userId) == {}
    ensures Permits(Compose(a, c, r), q) <==> HasRolePermission(r, CITIZEN, q.resource, q.action)
  {
    ComposedRows(a, c, r, q.userId, []);
  }

  class PermissionService {
    const redis: RedisService<string>

    constructor (redis: RedisService<string>)
      ensures this.redis == redis
    {
      this.redis := redis;
    }

    /** The assignments are read from `a`, the closure from `c`, and the rights of the i-th row's role from `r(i)`. */
    method HasPermission(a: Database, c: Database, r: nat -> Database,
                         userId: string, resource: string, action: string, cityId: Option<CityId>)
      returns (granted: bool)
      requires cityId.Some? && cityId.value != "" ==> ClosureEnds(c, AssignedCities(a, userId))
      modifies redis`entries
      ensures exists rows :: Outcome(a, c, r, Query(userId, resource, action, cityId), rows, redis.now,
                                     old(redis.entries), granted, redis.entries)
    {
      ghost var q, before := Query(userId, resource, action, cityId), redis.entries;
      var cacheKey := "permission:" + userId + ":" + resource + ":" + action +
                      (if cityId.Some? && cityId.value != "" then ":" + cityId.value else "");
      assert cacheKey == CacheKey(q);
      var cached := redis.Get(cacheKey);
      if cached == Some("true") {
        assert Outcome(a, c, r, q, [], redis.now, before, true, before);
        return true;
      }
      var assignments := GetUserCityAssignments(a, userId);
      AllRowCities(a, userId, assignments);
      if |assignments| == 0 {
        MissOutcome(a, c, r, q, assignments, redis.now, before);
        return HasRolePermission(r(0), CITIZEN, resource, action);
      }
      assert RowCities(assignments) == AssignedCities(a, userId) by { ComposedRows(a, c, c, userId, assignments); }
      if cityId.Some? && cityId.value != "" {
        var managedCityIds := GetAllManagedCities(c.cities, CitiesWhere(assignments, row => true));
        assert cityId.value in managedCityIds <==> cityId.value in Elems(managedCityIds);
        if !IsCityInScope(cityId.value, managedCityIds) {
          MissOutcome(a, c, r, q, assignments, redis.now, before);
          return false;
        }
      }
      for i := 0 to |assignments|
        invariant redis.entries == before
        invariant forall k :: 0 <= k < i ==> !HasRolePermission(r(k), assignments[k].assignment.role, resource, action)
      {
        if HasRolePermission(r(i), assignments[i].assignment.role, resource, action) {
          assert SomeRoleFound(r, q, assignments);
          MissOutcome(a, c, r, q, assignments, redis.now, before);
          redis.Set(cacheKey, "true", 300);
          return true;
        }
      }
      assert !SomeRoleFound(r, q, assignments);
      MissOutcome(a, c, r, q, assignments, redis.now, before);
      return false;
    }
  }

  /** A row is found whose role has the right when it is looked up. */
  ghost predicate SomeRoleFound(r: nat -> Database, q: Query, rows: seq<Row>) {
    exists i :: 0 <= i < |rows| && HasRolePermission(r(i), rows[i].assignment.role, q.resource, q.action)
  }

  /** Yes, by the tables as they are read: without rows, the citizens' right; else scope and some role. */
  ghost predicate YesFrom(c: Database, r: nat -> Database, q: Query, rows: seq<Row>) {
    if rows == [] then HasRolePermission(r(0), CITIZEN, q.resource, q.action)
    else ScopeHolds(c, q, RowCities(rows)) && SomeRoleFound(r, q, rows)
  }

  /** What a call answers and leaves, when it gets the rows in this order. */
  ghost predicate Outcome(a: Database, c: Database, r: nat -> Database, q: Query, rows: seq<Row>, now: nat,
                          store: Store<string>, granted: bool, store': Store<string>)
  {
    var hit, yes := Cached(store, now, q), YesFrom(c, r, q, rows);
    && (!hit ==> RowsOf(a, q.userId, rows)) && granted == (hit || yes)
    && store' == if !hit && rows != [] && yes then Put(store, now, CacheKey(q), "true", TTL_SECONDS) else store
  }

  lemma MissOutcome(a: Database, c: Database, r: nat -> Database, q: Query, rows: seq<Row>, now: nat,
                    store: Store<string>)
    requires RowsOf(a, q.userId, rows) && !Cached(store, now, q)
    ensures var yes := YesFrom(c, r, q, rows);
            Outcome(a, c, r, q, rows, now, store, yes,
                    if rows != [] && yes then Put(store, now, CacheKey(q), "true", TTL_SECONDS) else store)
  {
  }

  /** When all roles are looked up in one state, the outcome is that of the tables read, in any order of the rows. */
  lemma OutcomeOfComposed(a: Database, c: Database, r: Database, q: Query, rows: seq<Row>, now: nat,
                          store: Store<string>, granted: bool, store': Store<string>)
    requires Outcome(a, c, _ => r, q, rows, now, store, granted, store')
    ensures var seen := Compose(a, c, r);
            granted == Answer(seen, store, now, q) && store' == StoreAfter(seen, store, now, q)
  {
    if Cached(store, now, q) {
    } else if rows == [] {
      Unassigned(a, c, r, q);
    } else if !ScopeHolds(c, q, RowCities(rows)) {
      OutOfScope(a, c, r, q, rows);
    } else if i :| 0 <= i < |rows| && HasRolePermission(r, rows[i].assignment.role, q.resource, q.action) {
      RoleFound(a, c, r, q, rows, i);
    } else {
      NoRoleFound(a, c, r, q, rows);
    }
  }

  lemma SomeRowGrants(db: Database, userId: string, rows: seq<Row>, i: nat, resource: string, action: string)
    requires RowsOf(db, userId, rows) && i < |rows|
    requires HasRolePermission(db, rows[i].assignment.role, resource, action)
    ensures exists c ::
              c in AssignedCities(db, userId) && HasRolePermission(db, RoleIn(db, userId, c), resource, action)
  {
    assert rows[i] in rows;
    assert HasRolePermission(db, RoleIn(db, userId, rows[i].cityId), resource, action);
  }

  lemma NoRowGrants(db: Database, userId: string, rows: seq<Row>, resource: string, action: string)
    requires RowsOf(db, userId, rows)
    requires forall k :: 0 <= k < |rows| ==> !HasRolePermission(db, rows[k].assignment.role, resource, action)
    ensures forall c :: c in AssignedCities(db, userId) ==>
              !HasRolePermission(db, RoleIn(db, userId, c), resource, action)
  {
    forall c | c in AssignedCities(db, userId)
      ensures !HasRolePermission(db, RoleIn(db, userId, c), resource, action)
    {
      var row := Row(c, db.assignments[(userId, c)]);
      assert row in rows;
      var k :| 0 <= k < |rows| && rows[k] == row;
    }
  }

  // ----- managing admins -----

  ghost predicate IsSuperAdmin(db: Database, userId: string) {
    exists c :: c in AssignedCities(db, userId) && RoleIn(db, userId, c) == SUPER_ADMIN
  }

  /** The cities where the user is a city admin who may manage admins. */
  ghost function DelegatingCities(db: Database, userId: string): set<CityId> {
    set c | c in AssignedCities(db, userId) && RoleIn(db, userId, c) == CITY_ADMIN
        && db.assignments[(userId, c)].canManageAdmins
  }

  ghost predicate CanManageCityAdminsSpec(db: Database, userId: string, target: CityId) {
    IsSuperAdmin(db, userId) || target in Managed(db.cities, DelegatingCities(db, userId))
  }

  method CanManageCityAdmins(db: Database, userId: string, targetCityId: CityId) returns (can: bool)
    requires !IsSuperAdmin(db, userId) ==> ClosureEnds(db, DelegatingCities(db, userId))
    ensures can == CanManageCityAdminsSpec(db, userId, targetCityId)
  {
    var assignments := GetUserCityAssignments(db, userId);
    if exists row :: row in assignments && row.assignment.role == SUPER_ADMIN {
      return true;
    }
    var adminCities := CitiesWhere(assignments, (row: Row) =>
      row.assignment.role == CITY_ADMIN && row.assignment.canManageAdmins);
    forall c | c in AssignedCities(db, userId)
      ensures RoleIn(db, userId, c) != SUPER_ADMIN
    {
      assert Row(c, db.assignments[(userId, c)]) in assignments;
    }
    assert Elems(adminCities) == DelegatingCities(db, userId);
    assert forall c :: c in adminCities ==> c in Elems(adminCities);
    var managedCityIds := GetAllManagedCities(db.cities, adminCities);
    assert targetCityId in managedCityIds <==> targetCityId in Elems(managedCityIds);
    return IsCityInScope(targetCityId, managedCityIds);
  }

  /** Managing the admins of a city needs a super admin, or a city admin with that power of the city or one above. */
  lemma ManageAdminsIff(db: Database, userId: string, target: CityId)
    ensures CanManageCityAdminsSpec(db, userId, target) <==>
            || (exists c :: (userId, c) in db.assignments && db.assignments[(userId, c)].isActive
                            && db.assignments[(userId, c)].role == SUPER_ADMIN)
            || (exists c :: (userId, c) in db.assignments && db.assignments[(userId, c)].isActive
                            && db.assignments[(userId, c)].role == CITY_ADMIN
                                && db.assignments[(userId, c)].canManageAdmins
                            && (target == c || (target in db.cities && Below(db.cities, c, target))))
  {
    forall c ensures c in AssignedCities(db, userId) <==>
                     (userId, c) in db.assignments && db.assignments[(userId, c)].isActive {
      assert (userId, c).0 == userId;
    }
  }

  /** Who may manage the admins of a city may manage those of every city strictly below it. */
  lemma ManagingAdminsIsInherited(db: Database, userId: string, city: CityId, below: CityId)
    requires CanManageCityAdminsSpec(db, userId, city) && Below(db.cities, city, below)
    ensures CanManageCityAdminsSpec(db, userId, below)
  {
    if !IsSuperAdmin(db, userId) {
      var s := DelegatingCities(db, userId);
      ManagedIsLeastClosedSet(db.cities, s, s);
      var n: nat :| n > 0 && ActiveUp(db.cities, below, n) == Some(city);
      ClosedContains(db.cities, Managed(db.cities, s), city, below, n);
    }
  }

  /** Super admins have every right, in scope; other roles have exactly the rights linked to them. */
  lemma RightsOfRoles(db: Database, role: Role, resource: string, action: string)
    ensures role == SUPER_ADMIN ==> HasRolePermission(db, role, resource, action)
    ensures role != SUPER_ADMIN ==>
              (HasRolePermission(db, role, resource, action) <==>
               exists link :: link in db.rolePermissions && link.0 == role && link.1 in db.permissions
                              && db.permissions[link.1].resource == resource && db.permissions[link.1].action == action)
  {
    if role != SUPER_ADMIN && HasRolePermission(db, role, resource, action) {
      var id :| id in db.permissions && db.permissions[id].resource == resource
                && db.permissions[id].action == action && (role, id) in db.rolePermissions;
      assert (role, id).0 == role && (role, id).1 == id;
    }
  }

  /** A super admin is permitted everything, but with a city only in the closure of the assigned cities. */
  lemma SuperAdminPermits(db: Database, q: Query)
    requires IsSuperAdmin(db, q.userId)
    ensures Permits(db, q) <==>
            q.cityId == None || q.cityId == Some("") || q.cityId.value in Managed(db.cities,
                AssignedCities(db, q.userId))
  {
    var c :| c in AssignedCities(db, q.userId) && RoleIn(db, q.userId, c) == SUPER_ADMIN;
    assert HasRolePermission(db, RoleIn(db, q.userId, c), q.resource, q.action);
  }

  // ----- keys -----

  /** Components that cannot be mistaken for one another: the city id is last, so it may be anything. */
  predicate KeySafe(q: Query) {
    ColonFree(q.userId) && ColonFree(q.resource) && ColonFree(q.action)
  }

  predicate SameQuestion(q: Query, r: Query) {
    q.userId == r.userId && q.resource == r.resource && q.action == r.action && Scope(q) == Scope(r)
  }

  /** The part of a key after the user: resource, action, and the scope if there is one. */
  function ScopeSuffix(q: Query): string {
    if Scope(q).Some? then ":" + Scope(q).value else ""
  }

  lemma CacheKeyParts(q: Query)
    ensures CacheKey(q) == "permission:" + (q.userId + ":" + (q.resource + ":" + (q.action + ScopeSuffix(q))))
  {
  }

  lemma LastPartInjective(q: Query, r: Query)
    requires ColonFree(q.action) && ColonFree(r.action)
    requires q.action + ScopeSuffix(q) == r.action + ScopeSuffix(r)
    ensures q.action == r.action && Scope(q) == Scope(r)
  {
    if Scope(q).Some? {
      assert q.action + ScopeSuffix(q) == q.action + ":" + Scope(q).value;
      HasColon(q.action, Scope(q).value);
    } else {
      assert q.action + ScopeSuffix(q) == q.action;
    }
    if Scope(r).Some? {
      assert r.action + ScopeSuffix(r) == r.action + ":" + Scope(r).value;
      HasColon(r.action, Scope(r).value);
    } else {
      assert r.action + ScopeSuffix(r) == r.action;
    }
    if Scope(q).Some? && Scope(r).Some? {
      FirstComponent(q.action, Scope(q).value, r.action, Scope(r).value);
    }
  }

  lemma CacheKeyInjective(q: Query, r: Query)
    requires KeySafe(q) && KeySafe(r)
    ensures CacheKey(q) == CacheKey(r) <==> SameQuestion(q, r)
  {
    if CacheKey(q) == CacheKey(r) {
      CacheKeyParts(q);
      CacheKeyParts(r);
      var q3, r3 := q.action + ScopeSuffix(q), r.action + ScopeSuffix(r);
      var q2, r2 := q.resource + ":" + q3, r.resource + ":" + r3;
      SamePrefix("permission:", q.userId + ":" + q2, r.userId + ":" + r2);
      FirstComponent(q.userId, q2, r.userId, r2);
      FirstComponent(q.resource, q3, r.resource, r3);
      LastPartInjective(q, r);
    }
  }

  // ----- confused questions -----

  /** Two different questions with one key. */
  predicate Confused(q: Query, r: Query) {
    CacheKey(q) == CacheKey(r) && !SameQuestion(q, r)
  }

  function CityOf(q: Query): CityId {
    if Scope(q).Some? then Scope(q).value else "c"
  }

  /**
   * A database that grants what the query asks: its user is a city admin of its city, and city
   * admins hold the right.
   */
  function GrantingTo(q: Query): Database {
    Database(map[CityOf(q) := City("", None, true)], map[(q.userId, CityOf(q)) := Assignment(CITY_ADMIN, false, true)],
             map["p" := Permission(q.resource, q.action, None)], {(CITY_ADMIN, "p")})
  }

  lemma GrantingPermits(q: Query)
    ensures Constraints(GrantingTo(q)) && Permits(GrantingTo(q), q)
    ensures AssignedCities(GrantingTo(q), q.userId) == {CityOf(q)}
  {
    var db, city := GrantingTo(q), CityOf(q);
    assert (q.userId, city) in db.assignments;
    assert city in AssignedCities(db, q.userId);
    ManagedIsLeastClosedSet(db.cities, AssignedCities(db, q.userId), {});
    assert db.permissions["p"].resource == q.resource;
    assert HasRolePermission(db, RoleIn(db, q.userId, city), q.resource, q.action);
  }

  lemma OtherRightNotGranted(q: Query, r: Query)
    requires r.userId != q.userId || r.resource != q.resource || r.action != q.action
    ensures !Permits(GrantingTo(q), r)
  {
    var db := GrantingTo(q);
    if r.userId != q.userId {
      assert AssignedCities(db, r.userId) == {};
    }
  }

  /** Equal keys of one user, resource and action have one scope. */
  lemma KeyFixesScope(q: Query, r: Query)
    requires q.userId == r.userId && q.resource == r.resource && q.action == r.action && CacheKey(q) == CacheKey(r)
    ensures Scope(q) == Scope(r)
  {
    SamePrefix("permission:" + q.userId + ":" + q.resource + ":" + q.action, ScopeSuffix(q), ScopeSuffix(r));
    if Scope(q).Some? && Scope(r).Some? {
      SamePrefix(":", Scope(q).value, Scope(r).value);
    }
  }

  lemma ConfusedNotGranted(q: Query, r: Query)
    requires Confused(q, r)
    ensures !Permits(GrantingTo(q), r)
  {
    if r.userId == q.userId && r.resource == q.resource && r.action == q.action {
      KeyFixesScope(q, r);
    } else {
      OtherRightNotGranted(q, r);
    }
  }

  /** Questions that read the same get the same answer from the database. */
  lemma SameQuestionSameAnswer(db: Database, q: Query, r: Query)
    requires SameQuestion(q, r)
    ensures Permits(db, q) == Permits(db, r)
  {
  }

  /** Asking `q` and then `r`, with an empty cache and a database that never changes, answers `r` wrongly with yes. */
  ghost predicate AnsweredWrongly(db: Database, q: Query, r: Query) {
    Answer(db, StoreAfter(db, map[], 0, q), 0, r) && !Permits(db, r)
  }

  /** Some database makes two calls in a row go wrong if and only if the two questions are confused. */
  lemma ConfusedIff(q: Query, r: Query)
    ensures Confused(q, r) <==> exists db :: Constraints(db) && AnsweredWrongly(db, q, r)
  {
    if Confused(q, r) {
      GrantingPermits(q);
      ConfusedNotGranted(q, r);
      assert AnsweredWrongly(GrantingTo(q), q, r);
    }
    forall db | AnsweredWrongly(db, q, r) ensures Confused(q, r) {
      if SameQuestion(q, r) {
        SameQuestionSameAnswer(db, q, r);
      }
    }
  }

  /** One such pair: a colon in the resource, or in the action. */
  lemma ColonsConfuse()
    ensures Confused(Query("u", "a:b", "c", None), Query("u", "a", "b:c", None))
  {
    assert CacheKey(Query("u", "a:b", "c", None)) == "permission:u:a:b:c" == CacheKey(Query("u", "a", "b:c", None));
  }

  /** No two different questions of the set share a key. */
  ghost predicate KeysApart(questions: iset<Query>) {
    forall q, r :: q in questions && r in questions ==> !Confused(q, r)
  }

  lemma ColonFreeKeysApart(questions: iset<Query>)
    requires forall q :: q in questions ==> KeySafe(q)
    ensures KeysApart(questions)
  {
    forall q, r | q in questions && r in questions ensures !Confused(q, r) {
      CacheKeyInjective(q, r);
    }
  }
}
