/** libs/rbac/src/user-context.service.ts: the list forms of the decisions of the permission service. */
module UserContext {
  import opened Collections
  import opened Keys
  import opened CityHierarchy
  import opened Permissions

  datatype Right = Right(resource: string, action: string, description: Option<string>)

  function RightOf(p: Permission): Right {
    Right(p.resource, p.action, p.description)
  }

  /** The permission ids linked to a role. */
  function LinkedTo(db: Database, role: Role): set<string> {
    set rp | rp in db.rolePermissions && rp.0 == role && rp.1 in db.permissions :: rp.1
  }

  /** getRolePermissions: one entry for every role permission of the role, in any order. */
  method GetRolePermissions(db: Database, role: Role) returns (rights: seq<Right>)
    ensures forall x :: x in rights <==> exists id :: id in LinkedTo(db, role) && x == RightOf(db.permissions[id])
  {
    var todo := LinkedTo(db, role);
    rights := [];
    while todo != {}
      invariant todo <= LinkedTo(db, role)
      invariant forall x :: x in rights <==>
                  exists id :: id in LinkedTo(db, role) && id !in todo && x == RightOf(db.permissions[id])
      decreases todo
    {
      var id :| id in todo;
      rights := rights + [RightOf(db.permissions[id])];
      todo := todo - {id};
    }
  }

  function RightKey(x: Right): string {
    x.resource + ":" + x.action
  }

  /** The roles of the user's active assignments. */
  function RolesOf(db: Database, userId: string): set<Role> {
    set c | c in AssignedCities(db, userId) :: RoleIn(db, userId, c)
  }

  /** Every right linked to one of the user's roles. */
  ghost predicate Granted(db: Database, userId: string, x: Right) {
    exists role, id :: role in RolesOf(db, userId) && id in LinkedTo(db, role) && x == RightOf(db.permissions[id])
  }

  /** The user may act in the city of the scope, if there is one. */
  ghost predicate InScope(db: Database, userId: string, cityId: Option<CityId>) {
    cityId.Some? && cityId.value != "" ==> cityId.value in Managed(db.cities, AssignedCities(db, userId))
  }

  /** A value of a map filled under RightKey from `source`: right key, and taken from the source. */
  ghost predicate KeyedBy(m: map<string, Right>, source: iset<Right>) {
    && (forall k :: k in m ==> RightKey(m[k]) == k && m[k] in source)
    && (forall x :: x in source ==> RightKey(x) in m)
  }

  /** The rights of one role. */
  ghost predicate ListsLinked(db: Database, role: Role, rights: seq<Right>) {
    forall x :: x in rights <==> exists id :: id in LinkedTo(db, role) && x == RightOf(db.permissions[id])
  }

  /** One granted right for every key of a granted right. */
  ghost predicate ListsGranted(db: Database, userId: string, rights: seq<Right>) {
    && (forall x :: x in rights ==> Granted(db, userId, x))
    && (forall x :: Granted(db, userId, x) ==> exists y :: y in rights && RightKey(y) == RightKey(x))
    && (forall x, y :: x in rights && y in rights && RightKey(x) == RightKey(y) ==> x == y)
  }

  ghost predicate ListsAll(db: Database, rights: seq<Right>) {
    forall x :: x in rights <==> exists id :: id in db.permissions && x == RightOf(db.permissions[id])
  }

  ghost predicate EffectiveList(db: Database, userId: string, cityId: Option<CityId>, rights: seq<Right>) {
    if AssignedCities(db, userId) == {} then ListsLinked(db, CITIZEN, rights)
    else if IsSuperAdmin(db, userId) then ListsAll(db, rights)
    else if !InScope(db, userId, cityId) then rights == []
    else ListsGranted(db, userId, rights)
  }

  method GetUserEffectivePermissions(db: Database, userId: string, cityId: Option<CityId>) returns (rights: seq<Right>)
    requires cityId.Some? && cityId.value != "" && !IsSuperAdmin(db, userId) ==>
      ClosureEnds(db, AssignedCities(db, userId))
    ensures EffectiveList(db, userId, cityId, rights)
  {
    var assignments := GetUserCityAssignments(db, userId);
    AllRowCities(db, userId, assignments);
    if |assignments| == 0 {
      rights := GetRolePermissions(db, CITIZEN);
      return;
    }
    RowRoles(db, userId, assignments);
    if exists row :: row in assignments && row.assignment.role == SUPER_ADMIN {
      rights := AllPermissions(db);
      return;
    }
    if cityId.Some? && cityId.value != "" {
      var managedCityIds := GetAllManagedCities(db.cities, CitiesWhere(assignments, row => true));
      assert cityId.value in managedCityIds <==> cityId.value in Elems(managedCityIds);
      if !IsCityInScope(cityId.value, managedCityIds) {
        return [];
      }
    }
    var roleSet := set row | row in assignments :: row.assignment.role;
    assert roleSet == RolesOf(db, userId);
    rights := MergeRoles(db, userId, roleSet);
  }

  /** The rights linked to one of `roles`. */
  ghost function LinkedToAny(db: Database, roles: set<Role>): iset<Right> {
    iset role, id | role in roles && id in LinkedTo(db, role) :: RightOf(db.permissions[id])
  }

  /** The nested loops over the roles and their permissions. */
  method MergeRoles(db: Database, userId: string, roleSet: set<Role>) returns (rights: seq<Right>)
    requires roleSet == RolesOf(db, userId)
    ensures ListsGranted(db, userId, rights)
  {
    var allPermissions: map<string, Right> := map[];
    var todo := roleSet;
    while todo != {}
      invariant todo <= roleSet
      invariant KeyedBy(allPermissions, LinkedToAny(db, roleSet - todo))
      decreases todo
    {
      var role :| role in todo;
      var rolePerms := GetRolePermissions(db, role);
      allPermissions := AddRights(allPermissions, rolePerms, LinkedToAny(db, roleSet - todo));
      LinkedOneMore(db, roleSet - todo, role, rolePerms);
      todo := todo - {role};
      assert roleSet - todo == (roleSet - (todo + {role})) + {role};
    }
    assert roleSet - {} == roleSet;
    rights := ValuesOf(allPermissions);
    forall x ensures Granted(db, userId, x) <==> x in LinkedToAny(db, roleSet) {}
    forall x | Granted(db, userId, x) ensures exists y :: y in rights && RightKey(y) == RightKey(x) {
      assert allPermissions[RightKey(x)] in rights;
    }
  }

  lemma LinkedOneMore(db: Database, roles: set<Role>, role: Role, rolePerms: seq<Right>)
    requires ListsLinked(db, role, rolePerms)
    ensures LinkedToAny(db, roles + {role}) == LinkedToAny(db, roles) + iset x | x in rolePerms
  {
  }

  /** The forEach over one role's permissions: a key already present keeps its entry. */
  method AddRights(m: map<string, Right>, rolePerms: seq<Right>, ghost seen: iset<Right>)
      returns (r: map<string, Right>)
    requires KeyedBy(m, seen)
    ensures KeyedBy(r, seen + iset x | x in rolePerms)
    ensures forall k :: k in m ==> k in r && r[k] == m[k]
  {
    r := m;
    for i := 0 to |rolePerms|
      invariant KeyedBy(r, seen + iset x | x in rolePerms[..i])
      invariant forall k :: k in m ==> k in r && r[k] == m[k]
    {
      var perm := rolePerms[i];
      assert rolePerms[..i + 1] == rolePerms[..i] + [perm];
      if RightKey(perm) !in r {
        r := r[RightKey(perm) := Right(perm.resource, perm.action, perm.description)];
      }
    }
    assert rolePerms[..|rolePerms|] == rolePerms;
  }

  method ValuesOf(m: map<string, Right>) returns (rights: seq<Right>)
    ensures forall x :: x in rights <==> exists k :: k in m && m[k] == x
  {
    var todo := m.Keys;
    rights := [];
    while todo != {}
      invariant todo <= m.Keys
      invariant forall x :: x in rights <==> exists k :: k in m && k !in todo && m[k] == x
      decreases todo
    {
      var k :| k in todo;
      rights := rights + [m[k]];
      todo := todo - {k};
    }
  }

  method AllPermissions(db: Database) returns (rights: seq<Right>)
    ensures forall x :: x in rights <==> exists id :: id in db.permissions && x == RightOf(db.permissions[id])
  {
    var todo := db.permissions.Keys;
    rights := [];
    while todo != {}
      invariant todo <= db.permissions.Keys
      invariant forall x :: x in rights <==>
                  exists id :: id in db.permissions && id !in todo && x == RightOf(db.permissions[id])
      decreases todo
    {
      var id :| id in todo;
      rights := rights + [RightOf(db.permissions[id])];
      todo := todo - {id};
    }
  }

  lemma RowRoles(db: Database, userId: string, rows: seq<Row>)
    requires RowsOf(db, userId, rows)
    ensures forall role :: (exists row :: row in rows && row.assignment.role == role) <==> role in RolesOf(db, userId)
    ensures IsSuperAdmin(db, userId) <==> SUPER_ADMIN in RolesOf(db, userId)
  {
    forall c | c in AssignedCities(db, userId)
      ensures exists row :: row in rows && row.assignment.role == RoleIn(db, userId, c)
    {
      assert Row(c, db.assignments[(userId, c)]) in rows;
    }
  }

  // ----- the list agrees with the predicate -----

  predicate Names(rights: seq<Right>, resource: string, action: string) {
    exists x :: x in rights && x.resource == resource && x.action == action
  }

  /** No two different rights granted to the user are merged under one key. */
  ghost predicate DistinctKeys(db: Database, userId: string) {
    forall x, y :: Granted(db, userId, x) && Granted(db, userId, y) && RightKey(x) == RightKey(y) ==>
      x.resource == y.resource && x.action == y.action
  }

  /**
   * For a user who is not a super admin, the list names exactly the (resource, action) pairs that
   * the permission service permits if and only if no two granted rights share their key.
   */
  lemma ListAgreesIff(db: Database, userId: string, cityId: Option<CityId>, rights: seq<Right>)
    requires EffectiveList(db, userId, cityId, rights) && !IsSuperAdmin(db, userId)
    ensures (forall r, a :: Names(rights, r, a) <==> Permits(db, Query(userId, r, a, cityId)))
            <==> AssignedCities(db, userId) == {} || !InScope(db, userId, cityId) || DistinctKeys(db, userId)
  {
    if AssignedCities(db, userId) == {} {
      CitizenListAgrees(db, userId, cityId, rights);
    } else if InScope(db, userId, cityId) {
      GrantedListAgreesIff(db, userId, cityId, rights);
    } else {
      forall r, a ensures !Names(rights, r, a) && !Permits(db, Query(userId, r, a, cityId)) {
      }
    }
  }

  lemma CitizenListAgrees(db: Database, userId: string, cityId: Option<CityId>, rights: seq<Right>)
    requires AssignedCities(db, userId) == {} && ListsLinked(db, CITIZEN, rights)
    ensures forall r, a :: Names(rights, r, a) <==> Permits(db, Query(userId, r, a, cityId))
  {
    forall r, a ensures Names(rights, r, a) <==> Permits(db, Query(userId, r, a, cityId)) {
      LinkedIsRolePermission(db, CITIZEN, r, a);
      if Permits(db, Query(userId, r, a, cityId)) {
        var id :| id in LinkedTo(db, CITIZEN) && db.permissions[id].resource == r && db.permissions[id].action == a;
        assert RightOf(db.permissions[id]) in rights;
      }
    }
  }

  /** Some right granted to the user has this resource and action. */
  ghost predicate GrantedPair(db: Database, userId: string, r: string, a: string) {
    exists x :: Granted(db, userId, x) && x.resource == r && x.action == a
  }

  lemma GrantedListAgreesIff(db: Database, userId: string, cityId: Option<CityId>, rights: seq<Right>)
    requires AssignedCities(db, userId) != {} && !IsSuperAdmin(db, userId) && InScope(db, userId, cityId)
    requires ListsGranted(db, userId, rights)
    ensures (forall r, a :: Names(rights, r, a) <==> Permits(db, Query(userId, r, a, cityId))) <==>
      DistinctKeys(db, userId)
  {
    forall r, a ensures Permits(db, Query(userId, r, a, cityId)) <==> GrantedPair(db, userId, r, a) {
      PermitsIsGranted(db, userId, cityId, r, a);
    }
    if forall r, a :: Names(rights, r, a) <==> Permits(db, Query(userId, r, a, cityId)) {
      AllNamedIsDistinct(db, userId, rights);
    }
    if DistinctKeys(db, userId) {
      forall r, a ensures Names(rights, r, a) <==> GrantedPair(db, userId, r, a) {
        DistinctIsNamed(db, userId, rights, r, a);
      }
    }
  }

  lemma AllNamedIsDistinct(db: Database, userId: string, rights: seq<Right>)
    requires ListsGranted(db, userId, rights)
    requires forall r, a :: GrantedPair(db, userId, r, a) ==> Names(rights, r, a)
    ensures DistinctKeys(db, userId)
  {
    forall x, y | Granted(db, userId, x) && Granted(db, userId, y) && RightKey(x) == RightKey(y)
      ensures x.resource == y.resource && x.action == y.action
    {
      assert GrantedPair(db, userId, x.resource, x.action) && GrantedPair(db, userId, y.resource, y.action);
      NamedOnce(rights, x, y);
    }
  }

  /** A list with one entry per key names no two rights with the same key. */
  lemma NamedOnce(rights: seq<Right>, x: Right, y: Right)
    requires Names(rights, x.resource, x.action) && Names(rights, y.resource, y.action) && RightKey(x) == RightKey(y)
    requires forall x, y :: x in rights && y in rights && RightKey(x) == RightKey(y) ==> x == y
    ensures x.resource == y.resource && x.action == y.action
  {
    var x' :| x' in rights && x'.resource == x.resource && x'.action == x.action;
    var y' :| y' in rights && y'.resource == y.resource && y'.action == y.action;
    assert RightKey(x') == RightKey(x) && RightKey(y') == RightKey(y);
  }

  lemma DistinctIsNamed(db: Database, userId: string, rights: seq<Right>, r: string, a: string)
    requires ListsGranted(db, userId, rights) && DistinctKeys(db, userId)
    ensures Names(rights, r, a) <==> GrantedPair(db, userId, r, a)
  {
    if x :| Granted(db, userId, x) && x.resource == r && x.action == a {
      var y :| y in rights && RightKey(y) == RightKey(x);
      assert y.resource == r && y.action == a;
    }
  }

  lemma LinkedIsRolePermission(db: Database, role: Role, r: string, a: string)
    requires role != SUPER_ADMIN
    ensures HasRolePermission(db, role, r, a) <==>
            exists id :: id in LinkedTo(db, role) && db.permissions[id].resource == r && db.permissions[id].action == a
  {
    if HasRolePermission(db, role, r, a) {
      var id :| id in db.permissions && db.permissions[id].resource == r
                && db.permissions[id].action == a && (role, id) in db.rolePermissions;
      assert id in LinkedTo(db, role);
    }
  }

  lemma PermitsIsGranted(db: Database, userId: string, cityId: Option<CityId>, r: string, a: string)
    requires AssignedCities(db, userId) != {} && !IsSuperAdmin(db, userId) && InScope(db, userId, cityId)
    ensures Permits(db, Query(userId, r, a, cityId)) <==> GrantedPair(db, userId, r, a)
  {
    if Permits(db, Query(userId, r, a, cityId)) {
      var c :| c in AssignedCities(db, userId) && HasRolePermission(db, RoleIn(db, userId, c), r, a);
      HeldRoleGrants(db, userId, c, r, a);
    }
    if x :| Granted(db, userId, x) && x.resource == r && x.action == a {
      var c := GrantIsHeld(db, userId, x);
    }
  }

  lemma HeldRoleGrants(db: Database, userId: string, c: CityId, r: string, a: string)
    requires c in AssignedCities(db, userId) && !IsSuperAdmin(db, userId)
    requires HasRolePermission(db, RoleIn(db, userId, c), r, a)
    ensures GrantedPair(db, userId, r, a)
  {
    var role := RoleIn(db, userId, c);
    LinkedIsRolePermission(db, role, r, a);
    var id :| id in LinkedTo(db, role) && db.permissions[id].resource == r && db.permissions[id].action == a;
    assert Granted(db, userId, RightOf(db.permissions[id]));
  }

  lemma GrantIsHeld(db: Database, userId: string, x: Right) returns (c: CityId)
    requires Granted(db, userId, x)
    ensures c in AssignedCities(db, userId) && HasRolePermission(db, RoleIn(db, userId, c), x.resource, x.action)
  {
    var role, id :| role in RolesOf(db, userId) && id in LinkedTo(db, role) && x == RightOf(db.permissions[id]);
    c :| c in AssignedCities(db, userId) && RoleIn(db, userId, c) == role;
  }

  /** A citizen of city "c" whose role holds two permissions. */
  function Holding(x: Right, y: Right): Database {
    Database(map[], map[("u", "c") := Assignment(CITIZEN, false, true)],
             map["p" := Permission(x.resource, x.action, x.description),
                 "q" := Permission(y.resource, y.action, y.description)],
             {(CITIZEN, "p"), (CITIZEN, "q")})
  }

  /** Rights of different resources or actions that share a key; for instance ("a:b", "c") and ("a", "b:c"). */
  predicate Merged(x: Right, y: Right) {
    RightKey(x) == RightKey(y) && (x.resource != y.resource || x.action != y.action)
  }

  lemma HoldingGrants(x: Right, y: Right)
    requires Merged(x, y)
    ensures var db := Holding(x, y);
            && Constraints(db) && AssignedCities(db, "u") == {"c"} && !IsSuperAdmin(db, "u")
            && Granted(db, "u", x) && Granted(db, "u", y)
  {
    var db := Holding(x, y);
    assert ("u", "c") in db.assignments && "c" in AssignedCities(db, "u");
    assert RoleIn(db, "u", "c") == CITIZEN && CITIZEN in RolesOf(db, "u");
    assert "p" in LinkedTo(db, CITIZEN) && RightOf(db.permissions["p"]) == x;
    assert "q" in LinkedTo(db, CITIZEN) && RightOf(db.permissions["q"]) == y;
  }

  /** For any two merged rights there is a database that permits both, and of which every list names at most one. */
  lemma ListLosesARight(x: Right, y: Right, rights: seq<Right>)
    requires Merged(x, y) && EffectiveList(Holding(x, y), "u", None, rights)
    ensures Constraints(Holding(x, y)) && !DistinctKeys(Holding(x, y), "u")
    ensures Permits(Holding(x, y), Query("u", x.resource, x.action, None))
    ensures Permits(Holding(x, y), Query("u", y.resource, y.action, None))
    ensures !(Names(rights, x.resource, x.action) && Names(rights, y.resource, y.action))
  {
    HoldingGrants(x, y);
    PermitsIsGranted(Holding(x, y), "u", None, x.resource, x.action);
    PermitsIsGranted(Holding(x, y), "u", None, y.resource, y.action);
    MergedNotBothNamed(rights, x, y);
  }

  lemma MergedNotBothNamed(rights: seq<Right>, x: Right, y: Right)
    requires Merged(x, y) && forall x, y :: x in rights && y in rights && RightKey(x) == RightKey(y) ==> x == y
    ensures !(Names(rights, x.resource, x.action) && Names(rights, y.resource, y.action))
  {
    if Names(rights, x.resource, x.action) && Names(rights, y.resource, y.action) {
      NamedOnce(rights, x, y);
    }
  }

  lemma ColonsMerge()
    ensures Merged(Right("a:b", "c", None), Right("a", "b:c", None))
  {
    assert RightKey(Right("a:b", "c", None)) == "a:b:c" == RightKey(Right("a", "b:c", None));
  }

  /** Colon-free resources keep the keys apart. */
  lemma ColonFreeResourcesAreDistinct(db: Database, userId: string)
    requires forall id :: id in db.permissions ==> ColonFree(db.permissions[id].resource)
    ensures DistinctKeys(db, userId)
  {
    forall x, y | Granted(db, userId, x) && Granted(db, userId, y) && RightKey(x) == RightKey(y)
      ensures x.resource == y.resource && x.action == y.action
    {
      FirstComponent(x.resource, x.action, y.resource, y.action);
    }
  }

  /** For a super admin the list names exactly the rights that exist; every entry is a row of the table. */
  lemma SuperAdminList(db: Database, userId: string, cityId: Option<CityId>, rights: seq<Right>)
    requires EffectiveList(db, userId, cityId, rights) && IsSuperAdmin(db, userId)
    ensures forall x :: x in rights <==>
              exists id :: id in db.permissions && x.resource == db.permissions[id].resource
                           && x.action == db.permissions[id].action && x.description == db.permissions[id].description
  {
    forall x, id | id in db.permissions
      ensures x == RightOf(db.permissions[id]) <==>
              x.resource == db.permissions[id].resource && x.action == db.permissions[id].action
              && x.description == db.permissions[id].description
    {
    }
  }

  // ----- managed cities -----

  ghost function AdminCities(db: Database, userId: string): set<CityId> {
    set c | c in AssignedCities(db, userId) && RoleIn(db, userId, c) == CITY_ADMIN
  }

  lemma RowAdminCities(db: Database, userId: string, rows: seq<Row>)
    requires RowsOf(db, userId, rows)
    ensures Elems(CitiesWhere(rows, (row: Row) => row.assignment.role == CITY_ADMIN)) == AdminCities(db, userId)
  {
    forall c | c in AdminCities(db, userId)
      ensures c in CitiesWhere(rows, (row: Row) => row.assignment.role == CITY_ADMIN)
    {
      assert Row(c, db.assignments[(userId, c)]) in rows;
    }
  }

  method GetUserManagedCities(db: Database, userId: string) returns (ids: seq<CityId>)
    requires !IsSuperAdmin(db, userId) ==> ClosureEnds(db, AdminCities(db, userId))
    ensures Elems(ids) == if IsSuperAdmin(db, userId) then {} else Managed(db.cities, AdminCities(db, userId))
  {
    var assignments := GetUserCityAssignments(db, userId);
    AllRowCities(db, userId, assignments);
    RowRoles(db, userId, assignments);
    RowAdminCities(db, userId, assignments);
    if |assignments| == 0 {
      assert AdminCities(db, userId) == {};
      return [];
    }
    if exists row :: row in assignments && row.assignment.role == SUPER_ADMIN {
      return [];
    }
    ids := GetAllManagedCities(db.cities, CitiesWhere(assignments, (row: Row) => row.assignment.role == CITY_ADMIN));
  }

  ghost predicate CanManageCitySpec(db: Database, userId: string, cityId: CityId) {
    IsSuperAdmin(db, userId) || (AdminCities(db, userId) != {} && cityId in Managed(db.cities, AdminCities(db, userId)))
  }

  ghost predicate CanAccessCitySpec(db: Database, userId: string, cityId: CityId) {
    IsSuperAdmin(db, userId) || (AdminCities(db, userId) != {} ==>
        cityId in Managed(db.cities, AdminCities(db, userId)))
  }

  method CanManageCity(db: Database, userId: string, cityId: CityId) returns (can: bool)
    requires !IsSuperAdmin(db, userId) ==> ClosureEnds(db, AdminCities(db, userId))
    ensures can == CanManageCitySpec(db, userId, cityId)
  {
    var assignments := GetUserCityAssignments(db, userId);
    RowRoles(db, userId, assignments);
    if exists row :: row in assignments && row.assignment.role == SUPER_ADMIN {
      return true;
    }
    var adminCities := CitiesWhere(assignments, (row: Row) => row.assignment.role == CITY_ADMIN);
    RowAdminCities(db, userId, assignments);
    assert adminCities == [] <==> Elems(adminCities) == {} by {
      if adminCities != [] { assert adminCities[0] in Elems(adminCities); }
    }
    if |adminCities| == 0 {
      return false;
    }
    var managedCityIds := GetAllManagedCities(db.cities, adminCities);
    assert cityId in managedCityIds <==> cityId in Elems(managedCityIds);
    return IsCityInScope(cityId, managedCityIds);
  }

  method CanAccessCity(db: Database, userId: string, cityId: CityId) returns (can: bool)
    requires !IsSuperAdmin(db, userId) ==> ClosureEnds(db, AdminCities(db, userId))
    ensures can == CanAccessCitySpec(db, userId, cityId)
  {
    var assignments := GetUserCityAssignments(db, userId);
    RowRoles(db, userId, assignments);
    if exists row :: row in assignments && row.assignment.role == SUPER_ADMIN {
      return true;
    }
    var adminCities := CitiesWhere(assignments, (row: Row) => row.assignment.role == CITY_ADMIN);
    RowAdminCities(db, userId, assignments);
    assert adminCities == [] <==> Elems(adminCities) == {} by {
      if adminCities != [] { assert adminCities[0] in Elems(adminCities); }
    }
    if |adminCities| > 0 {
      var managedCityIds := GetAllManagedCities(db.cities, adminCities);
      assert cityId in managedCityIds <==> cityId in Elems(managedCityIds);
      return IsCityInScope(cityId, managedCityIds);
    }
    return true;
  }

  /**
   * For a user who is not a super admin: the managed list holds exactly the manageable cities,
   * which are accessible, stay manageable downwards, and lie in the scope of every permission query.
   */
  lemma ManagedListAgrees(db: Database, userId: string, ids: seq<CityId>, c: CityId)
    requires !IsSuperAdmin(db, userId) && Elems(ids) == Managed(db.cities, AdminCities(db, userId))
    ensures c in ids <==> CanManageCitySpec(db, userId, c)
    ensures CanManageCitySpec(db, userId, c) ==> CanAccessCitySpec(db, userId, c) && InScope(db, userId, Some(c))
    ensures forall d :: CanManageCitySpec(db, userId, c) && Below(db.cities, c, d) ==> CanManageCitySpec(db, userId, d)
  {
    assert c in ids <==> c in Elems(ids);
    ManagedIsAClosure(db.cities, AdminCities(db, userId), AssignedCities(db, userId));
    ManagedIsLeastClosedSet(db.cities, AdminCities(db, userId), {});
    forall d | CanManageCitySpec(db, userId, c) && Below(db.cities, c, d) ensures CanManageCitySpec(db, userId, d) {
      var n: nat :| n > 0 && ActiveUp(db.cities, d, n) == Some(c);
      ClosedContains(db.cities, Managed(db.cities, AdminCities(db, userId)), c, d, n);
    }
  }

  /** The user is an active city admin of the city or of one that it lies below. */
  ghost predicate Administers(db: Database, userId: string, cityId: CityId) {
    exists a :: (userId, a) in db.assignments && db.assignments[(userId, a)].isActive
                && db.assignments[(userId, a)].role == CITY_ADMIN
                && (cityId == a || (cityId in db.cities && Below(db.cities, a, cityId)))
  }

  /** Managing a city needs a super admin or a city admin of it or above. */
  lemma ManageIff(db: Database, userId: string, cityId: CityId)
    ensures CanManageCitySpec(db, userId, cityId) <==> IsSuperAdmin(db, userId) || Administers(db, userId, cityId)
  {
    if Administers(db, userId, cityId) {
      var a :| (userId, a) in db.assignments && db.assignments[(userId, a)].isActive
               && db.assignments[(userId, a)].role == CITY_ADMIN
               && (cityId == a || (cityId in db.cities && Below(db.cities, a, cityId)));
      assert a in AdminCities(db, userId);
    }
  }

  /** Accessing it does too, unless the user is no city admin at all. */
  lemma AccessIff(db: Database, userId: string, cityId: CityId)
    ensures CanAccessCitySpec(db, userId, cityId) <==>
            || IsSuperAdmin(db, userId) || Administers(db, userId, cityId)
            || forall a :: (userId, a) in db.assignments && db.assignments[(userId, a)].isActive ==>
                 db.assignments[(userId, a)].role != CITY_ADMIN
  {
    ManageIff(db, userId, cityId);
    if a :| (userId, a) in db.assignments && db.assignments[(userId, a)].isActive
            && db.assignments[(userId, a)].role == CITY_ADMIN {
      assert a in AdminCities(db, userId);
    }
  }
}
