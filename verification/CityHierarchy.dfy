/**
 * The city forest of libs/rbac/src/city-hierarchy.service.ts: downward closure over active
 * children, the walk up to the root, and how the two relate.
 */
module CityHierarchy {
  import opened Collections

  type CityId = string

  datatype City = City(name: string, parentCityId: Option<CityId>, isActive: bool)

  /** The cities table, by primary key. */
  type Cities = map<CityId, City>

  // ----- the two walks, step by step -----

  predicate IsActiveChild(db: Cities, parent: CityId, c: CityId) {
    c in db && db[c].isActive && db[c].parentCityId == Some(parent)
  }

  /** The city `n` parents above `x`, provided `x` and every city passed on the way are active. */
  function ActiveUp(db: Cities, x: CityId, n: nat): Option<CityId>
    decreases n
  {
    if n == 0 then Some(x)
    else if x in db && db[x].isActive && db[x].parentCityId.Some? then
      ActiveUp(db, db[x].parentCityId.value, n - 1)
    else None
  }

  /** `x` lies strictly below `a` through active cities only. */
  ghost predicate Below(db: Cities, a: CityId, x: CityId) {
    exists n: nat :: n > 0 && ActiveUp(db, x, n) == Some(a)
  }

  ghost function Descendants(db: Cities, a: CityId): set<CityId> {
    set x | x in db && Below(db, a, x)
  }

  /** The ancestor loop looks a city up only when its id is truthy and stops when no row is found. */
  predicate Visits(db: Cities, x: CityId) {
    x != "" && x in db
  }

  /** The city that turn `n` of the ancestor loop started at `x` puts on the path. */
  function Up(db: Cities, x: CityId, n: nat): Option<CityId>
    decreases n
  {
    if !Visits(db, x) then None
    else if n == 0 then Some(x)
    else if db[x].parentCityId.Some? then Up(db, db[x].parentCityId.value, n - 1)
    else None
  }

  /** The ids on the path of `x`, root first, cut off after `n` cities. */
  function PathUpTo(db: Cities, x: CityId, n: nat): seq<CityId>
    decreases n
  {
    if n == 0 || !Visits(db, x) then []
    else if db[x].parentCityId.Some? then PathUpTo(db, db[x].parentCityId.value, n - 1) + [x]
    else [x]
  }

  function CityPath(db: Cities, x: CityId): seq<CityId> {
    PathUpTo(db, x, |db|)
  }

  // ----- lemmas about active ancestry -----

  lemma {:induction false} ActiveUpAdd(db: Cities, x: CityId, m: nat, n: nat)
    ensures ActiveUp(db, x, m + n) ==
            match ActiveUp(db, x, m) { case Some(y) => ActiveUp(db, y, n) case None => None }
    decreases m
  {
    if m > 0 && x in db && db[x].isActive && db[x].parentCityId.Some? {
      ActiveUpAdd(db, db[x].parentCityId.value, m - 1, n);
    }
  }

  lemma BelowTransitive(db: Cities, a: CityId, b: CityId, c: CityId)
    requires Below(db, a, b) && Below(db, b, c)
    ensures Below(db, a, c)
  {
    var m: nat :| m > 0 && ActiveUp(db, c, m) == Some(b);
    var n: nat :| n > 0 && ActiveUp(db, b, n) == Some(a);
    ActiveUpAdd(db, c, m, n);
  }

  lemma ChildIsBelow(db: Cities, a: CityId, c: CityId)
    requires IsActiveChild(db, a, c)
    ensures Below(db, a, c) && c in Descendants(db, a)
  {
    assert ActiveUp(db, c, 1) == Some(a);
  }

  /** Everything strictly below `a` is an active child of `a` or strictly below one. */
  lemma BelowThroughChild(db: Cities, a: CityId, x: CityId) returns (c: CityId)
    requires Below(db, a, x)
    ensures IsActiveChild(db, a, c) && (x == c || Below(db, c, x)) && x in db
  {
    var n: nat :| n > 0 && ActiveUp(db, x, n) == Some(a);
    ActiveUpAdd(db, x, n - 1, 1);
    c := ActiveUp(db, x, n - 1).value;
    assert ActiveUp(db, c, 1) == Some(a);
  }

  /** A cycle of active cities can only be entered from above by a city that is itself on it. */
  lemma CycleReachesTop(db: Cities, a: CityId, d: CityId)
    requires Below(db, a, d) && Below(db, d, d)
    ensures Below(db, a, a)
  {
    var n: nat :| n > 0 && ActiveUp(db, d, n) == Some(a);
    var k: nat :| k > 0 && ActiveUp(db, d, k) == Some(d);
    ActiveUpAdd(db, d, k, n);
    ActiveUpAdd(db, d, n, k);
  }

  /** Two active children of one city share no descendant, unless that city is its own descendant. */
  lemma SiblingsDisjoint(db: Cities, a: CityId, c1: CityId, c2: CityId, x: CityId)
    requires IsActiveChild(db, a, c1) && IsActiveChild(db, a, c2) && c1 != c2
    requires x == c1 || Below(db, c1, x)
    requires x == c2 || Below(db, c2, x)
    ensures Below(db, a, a)
  {
    var m: nat :| ActiveUp(db, x, m) == Some(c1);
    var n: nat :| ActiveUp(db, x, n) == Some(c2);
    if m < n {
      SiblingAbove(db, a, c1, c2, x, m, n);
    } else {
      SiblingAbove(db, a, c2, c1, x, n, m);
    }
  }

  lemma SiblingAbove(db: Cities, a: CityId, c1: CityId, c2: CityId, x: CityId, m: nat, n: nat)
    requires IsActiveChild(db, a, c1) && IsActiveChild(db, a, c2) && c1 != c2
    requires ActiveUp(db, x, m) == Some(c1) && ActiveUp(db, x, n) == Some(c2) && m <= n
    ensures Below(db, a, a)
  {
    ActiveUpAdd(db, x, m, n - m);
    assert ActiveUp(db, a, n - m - 1) == Some(c2);
    ActiveUpAdd(db, a, n - m - 1, 1);
    assert ActiveUp(db, c2, 1) == Some(a);
  }

  lemma DescendantsShrink(db: Cities, a: CityId, c: CityId)
    requires !Below(db, a, a) && IsActiveChild(db, a, c)
    ensures !Below(db, c, c)
    ensures Descendants(db, c) < Descendants(db, a)
  {
    ChildIsBelow(db, a, c);
    if Below(db, c, c) {
      CycleReachesTop(db, a, c);
    }
    forall x | x in Descendants(db, c) ensures x in Descendants(db, a) {
      BelowTransitive(db, a, c, x);
    }
    assert c !in Descendants(db, c);
  }

  /** Some nested call of getChildCities on `a` runs at depth `n`. */
  ghost predicate CallAtDepth(db: Cities, a: CityId, n: nat) {
    exists x :: ActiveUp(db, x, n) == Some(a)
  }

  /**
   * The recursion of getChildCities on `a` ends precisely when `a` is not its own active
   * descendant: otherwise there is a nested call at every depth.
   */
  lemma ChildRecursionUnbounded(db: Cities, a: CityId)
    ensures Below(db, a, a) <==> forall n: nat :: CallAtDepth(db, a, n)
  {
    if Below(db, a, a) {
      forall n: nat ensures CallAtDepth(db, a, n) {
        var k: nat :| k > 0 && ActiveUp(db, a, k) == Some(a);
        var _ := DeepCall(db, a, k, n);
      }
    } else {
      var n := |db| + 1;
      if CallAtDepth(db, a, n) {
        var x :| ActiveUp(db, x, n) == Some(a);
        ChainTooLong(db, a, x, n);
      }
    }
  }

  lemma {:induction false} DeepCall(db: Cities, a: CityId, k: nat, n: nat) returns (x: CityId)
    requires k > 0 && ActiveUp(db, a, k) == Some(a)
    ensures ActiveUp(db, x, n) == Some(a)
  {
    if n == 0 {
      x := a;
    } else {
      var y := DeepCall(db, a, k, n - 1);
      ActiveUpAdd(db, y, n - 1, k);
      ActiveUpAdd(db, y, k - 1, n);
      x := ActiveUp(db, y, k - 1).value;
    }
  }

  lemma ChainTooLong(db: Cities, a: CityId, x: CityId, n: nat)
    requires ActiveUp(db, x, n) == Some(a) && n > |db|
    ensures Below(db, a, a)
  {
    forall i: nat | i < n ensures ActiveUp(db, x, i).Some? && ActiveUp(db, x, i).value in db {
      ActiveUpAdd(db, x, i, n - i);
    }
    var chain := seq(n, i requires 0 <= i < n => ActiveUp(db, x, i).value);
    if NoDup(chain) {
      NoDupBound(chain, db.Keys);
    } else {
      var i, j :| 0 <= i < j < n && chain[i] == chain[j];
      var d := chain[i];
      ActiveUpAdd(db, x, i, j - i);
      assert Below(db, d, d);
      ActiveUpAdd(db, x, i, n - i);
      assert Below(db, a, d);
      CycleReachesTop(db, a, d);
    }
  }

  // ----- lemmas about the walk up -----

  lemma {:induction false} UpAdd(db: Cities, x: CityId, m: nat, n: nat)
    ensures Up(db, x, m + n) == match Up(db, x, m) { case Some(y) => Up(db, y, n) case None => None }
    decreases m
  {
    if m > 0 && Visits(db, x) && db[x].parentCityId.Some? {
      UpAdd(db, db[x].parentCityId.value, m - 1, n);
    }
  }

  lemma {:induction false} UpIsARow(db: Cities, x: CityId, n: nat)
    requires Up(db, x, n).Some?
    ensures Visits(db, Up(db, x, n).value)
    decreases n
  {
    if n > 0 {
      UpIsARow(db, db[x].parentCityId.value, n - 1);
    }
  }

  /** The loop of getCityPath stops: some turn finds no city. */
  ghost predicate WalkEnds(db: Cities, x: CityId) {
    exists n: nat :: Up(db, x, n) == None
  }

  /** The walk meets a city twice. */
  ghost predicate MeetsTwice(db: Cities, x: CityId) {
    exists i: nat, j: nat :: i < j && Up(db, x, i).Some? && Up(db, x, i) == Up(db, x, j)
  }

  /**
   * The loop of getCityPath stops exactly when it has stopped after as many turns as there are
   * cities, and exactly when it never meets a city twice.
   */
  lemma WalkEndsIff(db: Cities, x: CityId)
    ensures WalkEnds(db, x) <==> Up(db, x, |db|) == None
    ensures WalkEnds(db, x) <==> !MeetsTwice(db, x)
  {
    if MeetsTwice(db, x) {
      var i: nat, j: nat :| i < j && Up(db, x, i).Some? && Up(db, x, i) == Up(db, x, j);
      forall n: nat ensures Up(db, x, n).Some? {
        LoopedWalk(db, x, i, j, n);
      }
    } else {
      NoRepeatStops(db, x);
    }
  }

  lemma NoRepeatStops(db: Cities, x: CityId)
    requires !MeetsTwice(db, x)
    ensures Up(db, x, |db|) == None
  {
    if Up(db, x, |db|).Some? {
      var k := |db| + 1;
      forall i: nat | i < k ensures Up(db, x, i).Some? && Up(db, x, i).value in db {
        UpAdd(db, x, i, |db| - i);
        UpIsARow(db, x, i);
      }
      var chain := seq(k, i requires 0 <= i < k => Up(db, x, i).value);
      NoDupBound(chain, db.Keys);
    }
  }

  lemma {:induction false} LoopedWalk(db: Cities, x: CityId, i: nat, j: nat, n: nat)
    requires i < j && Up(db, x, i).Some? && Up(db, x, i) == Up(db, x, j)
    ensures Up(db, x, n).Some?
    decreases n
  {
    if n <= j {
      UpAdd(db, x, n, j - n);
    } else {
      UpAdd(db, x, j, n - j);
      UpAdd(db, x, i, n - j);
      LoopedWalk(db, x, i, j, n - (j - i));
    }
  }

  /** The path lists the cities of the walk in reverse, and only its length depends on where it ends. */
  lemma {:induction false} PathAt(db: Cities, x: CityId, n: nat)
    requires Up(db, x, n) == None
    ensures |PathUpTo(db, x, n)| <= n
    ensures Up(db, x, |PathUpTo(db, x, n)|) == None
    ensures forall i :: 0 <= i < |PathUpTo(db, x, n)| ==>
              Up(db, x, i) == Some(PathUpTo(db, x, n)[|PathUpTo(db, x, n)| - 1 - i])
    decreases n
  {
    if n > 0 && Visits(db, x) && db[x].parentCityId.Some? {
      var p := db[x].parentCityId.value;
      PathAt(db, p, n - 1);
      var path := PathUpTo(db, x, n);
      forall i | 0 <= i < |path| ensures Up(db, x, i) == Some(path[|path| - 1 - i]) {
        if i > 0 {
          assert Up(db, x, i) == Up(db, p, i - 1);
        }
      }
    }
  }

  /**
   * Up/down duality. `x` is strictly below `a` exactly when `a` stands on the path of `x` before
   * its end and every later city of that path is active.
   */
  lemma UpDownDuality(db: Cities, a: CityId, x: CityId)
    requires WalkEnds(db, x) && Visits(db, a) && "" !in db
    ensures Below(db, a, x) <==>
            var p := CityPath(db, x);
            exists i :: 0 <= i < |p| - 1 && p[i] == a && forall j :: i < j < |p| ==> p[j] in db && db[p[j]].isActive
  {
    WalkEndsIff(db, x);
    PathAt(db, x, |db|);
    var p := CityPath(db, x);
    if Below(db, a, x) {
      var n: nat :| n > 0 && ActiveUp(db, x, n) == Some(a);
      ActiveIsWalk(db, x, n);
      UpEndsOnce(db, x, |p|, n);
      var i := |p| - 1 - n;
      assert p[i] == a;
      forall j | i < j < |p| ensures p[j] in db && db[p[j]].isActive {
        assert Up(db, x, |p| - 1 - j) == Some(p[|p| - 1 - (|p| - 1 - j)]);
      }
    }
    if i :| 0 <= i < |p| - 1 && p[i] == a && forall j :: i < j < |p| ==> p[j] in db && db[p[j]].isActive {
      var n := |p| - 1 - i;
      assert Up(db, x, n) == Some(p[|p| - 1 - n]);
      forall k: nat | k < n ensures Up(db, x, k).Some? && Up(db, x, k).value in db && db[Up(db, x, k).value].isActive {
        assert Up(db, x, k) == Some(p[|p| - 1 - k]);
      }
      WalkIsActive(db, x, n);
    }
  }

  lemma UpEndsOnce(db: Cities, x: CityId, end: nat, n: nat)
    requires Up(db, x, end) == None && Up(db, x, n).Some?
    ensures n < end
  {
    if end <= n {
      UpAdd(db, x, end, n - end);
    }
  }

  /** The path has a city for turn `i` exactly when the walk finds one. */
  lemma PathCovers(db: Cities, x: CityId, i: nat)
    requires WalkEnds(db, x)
    ensures i < |CityPath(db, x)| <==> Up(db, x, i).Some?
    ensures i < |CityPath(db, x)| ==> Up(db, x, i) == Some(CityPath(db, x)[|CityPath(db, x)| - 1 - i])
  {
    WalkEndsIff(db, x);
    PathAt(db, x, |db|);
    if Up(db, x, i).Some? {
      UpEndsOnce(db, x, |CityPath(db, x)|, i);
    }
  }

  lemma {:induction false} ActiveIsWalk(db: Cities, x: CityId, n: nat)
    requires "" !in db && ActiveUp(db, x, n).Some? && Visits(db, ActiveUp(db, x, n).value)
    ensures Up(db, x, n) == ActiveUp(db, x, n)
    ensures forall k: nat :: k < n ==> Up(db, x, k).Some? && Up(db, x, k).value in db && db[Up(db, x, k).value].isActive
    decreases n
  {
    if n > 0 {
      var p := db[x].parentCityId.value;
      ActiveIsWalk(db, p, n - 1);
      forall k: nat | k < n ensures Up(db, x, k).Some? && Up(db, x, k).value in db && db[Up(db, x, k).value].isActive {
        if k > 0 {
          assert Up(db, x, k) == Up(db, p, k - 1);
        }
      }
    }
  }

  lemma {:induction false} WalkIsActive(db: Cities, x: CityId, n: nat)
    requires Up(db, x, n).Some?
    requires forall k: nat :: k < n ==>
               Up(db, x, k).Some? && Up(db, x, k).value in db && db[Up(db, x, k).value].isActive
    ensures ActiveUp(db, x, n) == Up(db, x, n)
    decreases n
  {
    if n > 0 {
      assert Up(db, x, 0) == Some(x);
      var p := db[x].parentCityId.value;
      forall k: nat | k < n - 1
        ensures Up(db, p, k).Some? && Up(db, p, k).value in db && db[Up(db, p, k).value].isActive
      {
        assert Up(db, x, k + 1) == Up(db, p, k);
      }
      WalkIsActive(db, p, n - 1);
    }
  }

  /** A city without a row, or with an empty id, has no path; the path ends below a parent without one. */
  lemma PathStops(db: Cities, x: CityId)
    ensures CityPath(db, x) == [] <==> x == "" || x !in db
    ensures x != "" && x in db && (db[x].parentCityId in [None, Some("")] || db[x].parentCityId.value !in db) ==>
              CityPath(db, x) == [x]
  {
    if x in db {
      assert |db| > 0;
      var up := db[x].parentCityId;
      assert up.Some? && (up.value == "" || up.value !in db) ==> PathUpTo(db, up.value, |db| - 1) == [];
    }
  }

  // ----- the managed closure -----

  ghost predicate ClosedUnderChildren(db: Cities, s: set<CityId>) {
    forall p, c :: p in s && IsActiveChild(db, p, c) ==> c in s
  }

  /** The given cities together with everything strictly below one of them. */
  ghost function Managed(db: Cities, ids: set<CityId>): set<CityId> {
    ids + set x | x in db && exists a :: a in ids && Below(db, a, x)
  }

  /** Managed(ids) contains the ids, is closed under active children, and is the least such set. */
  lemma ManagedIsLeastClosedSet(db: Cities, ids: set<CityId>, s: set<CityId>)
    ensures ids <= Managed(db, ids)
    ensures ClosedUnderChildren(db, Managed(db, ids))
    ensures ids <= s && ClosedUnderChildren(db, s) ==> Managed(db, ids) <= s
  {
    forall p, c | p in Managed(db, ids) && IsActiveChild(db, p, c) ensures c in Managed(db, ids) {
      ChildIsBelow(db, p, c);
      if p !in ids {
        var a :| a in ids && Below(db, a, p);
        BelowTransitive(db, a, p, c);
      }
    }
    if ids <= s && ClosedUnderChildren(db, s) {
      forall x | x in Managed(db, ids) ensures x in s {
        if x !in ids {
          var a :| a in ids && Below(db, a, x);
          var n: nat :| n > 0 && ActiveUp(db, x, n) == Some(a);
          ClosedContains(db, s, a, x, n);
        }
      }
    }
  }

  lemma {:induction false} ClosedContains(db: Cities, s: set<CityId>, a: CityId, x: CityId, n: nat)
    requires a in s && ClosedUnderChildren(db, s) && ActiveUp(db, x, n) == Some(a)
    ensures x in s
    decreases n
  {
    if n > 0 {
      ClosedContains(db, s, a, db[x].parentCityId.value, n - 1);
      assert IsActiveChild(db, db[x].parentCityId.value, x);
    }
  }

  /** The closure is monotone, idempotent and distributes over union. */
  lemma ManagedIsAClosure(db: Cities, s: set<CityId>, t: set<CityId>)
    ensures s <= t ==> Managed(db, s) <= Managed(db, t)
    ensures Managed(db, Managed(db, s)) == Managed(db, s)
    ensures Managed(db, s + t) == Managed(db, s) + Managed(db, t)
  {
    ManagedIsLeastClosedSet(db, s, Managed(db, s));
    ManagedIsLeastClosedSet(db, Managed(db, s), Managed(db, s));
  }

  // ----- the service -----

  /** The `findMany` on active children; the database may list them in any order. */
  method FindActiveChildren(db: Cities, parentId: CityId) returns (children: seq<CityId>)
    ensures NoDup(children)
    ensures forall c :: c in children <==> IsActiveChild(db, parentId, c)
  {
    var rows := set c | c in db && IsActiveChild(db, parentId, c);
    children := [];
    while rows != {}
      invariant NoDup(children)
      invariant forall c :: c in children ==> c !in rows
      invariant forall c :: c in children || c in rows <==> IsActiveChild(db, parentId, c)
      decreases rows
    {
      var c :| c in rows;
      rows := rows - {c};
      children := children + [c];
    }
  }

  /** The ids one `getChildren` call pushes. */
  ghost predicate Lists(db: Cities, parentId: CityId, recursive: bool, ids: seq<CityId>) {
    && NoDup(ids)
    && forall x :: x in ids <==> if recursive then Below(db, parentId, x) else IsActiveChild(db, parentId, x)
  }

  method GetChildren(db: Cities, parentId: CityId, recursive: bool, pushed: seq<CityId>)
    returns (childCityIds: seq<CityId>, ghost added: seq<CityId>)
    requires recursive ==> !Below(db, parentId, parentId)
    ensures childCityIds == pushed + added
    ensures Lists(db, parentId, recursive, added)
    decreases |Descendants(db, parentId)|
  {
    childCityIds, added := pushed, [];
    var children := FindActiveChildren(db, parentId);
    for i := 0 to |children|
      invariant childCityIds == pushed + added && NoDup(added)
      invariant !recursive ==> added == children[..i]
      invariant recursive ==> forall x :: x in added <==>
                  exists k :: 0 <= k < i && (x == children[k] || Below(db, children[k], x))
    {
      var child := children[i];
      ghost var before := added;
      childCityIds := childCityIds + [child];
      added := added + [child];
      if recursive {
        DescendantsShrink(db, parentId, child);
        StrictSubsetSize(Descendants(db, child), Descendants(db, parentId));
        ghost var sub;
        childCityIds, sub := GetChildren(db, child, recursive, childCityIds);
        added := added + sub;
        forall x | x in before ensures x !in [child] + sub {
          if x in [child] + sub {
            var k :| 0 <= k < i && (x == children[k] || Below(db, children[k], x));
            SiblingsDisjoint(db, parentId, children[k], child, x);
          }
        }
        NoDupConcat([child], sub);
        NoDupConcat(before, [child] + sub);
        assert added == before + ([child] + sub);
      }
    }
    if recursive {
      forall x ensures x in added <==> Below(db, parentId, x) {
        if x in added {
          var k :| 0 <= k < |children| && (x == children[k] || Below(db, children[k], x));
          ChildIsBelow(db, parentId, children[k]);
          if x != children[k] {
            BelowTransitive(db, parentId, children[k], x);
          }
        }
        if Below(db, parentId, x) {
          var c := BelowThroughChild(db, parentId, x);
          assert c in children;
        }
      }
    }
  }

  lemma StrictSubsetSize<T>(s: set<T>, t: set<T>)
    requires s < t
    ensures |s| < |t|
  {
    var x :| x in t && x !in s;
    assert s + {x} <= t;
    SubsetSize(s + {x}, t);
  }

  lemma {:induction false} SubsetSize<T>(s: set<T>, t: set<T>)
    requires s <= t
    ensures |s| <= |t|
  {
    if s != {} {
      var x :| x in s;
      SubsetSize(s - {x}, t - {x});
    }
  }

  /** Lists each city strictly below `cityId` through active cities once; without `recursive`, its active children. */
  method GetChildCities(db: Cities, cityId: CityId, recursive: bool) returns (ids: seq<CityId>)
    requires recursive ==> !Below(db, cityId, cityId)
    ensures Lists(db, cityId, recursive, ids)
  {
    ghost var added;
    ids, added := GetChildren(db, cityId, recursive, []);
    assert ids == added;
  }

  /** The set after the first `i` cities have added their descendants. */
  ghost predicate ManagedSoFar(db: Cities, cityIds: seq<CityId>, i: nat, managed: seq<CityId>)
    requires i <= |cityIds|
  {
    NoDup(managed) && Elems(managed) == Elems(cityIds) + Managed(db, Elems(cityIds[..i]))
  }

  method GetAllManagedCities(db: Cities, cityIds: seq<CityId>) returns (managed: seq<CityId>)
    requires forall c :: c in cityIds ==> !Below(db, c, c)
    ensures NoDup(managed)
    ensures Elems(managed) == Managed(db, Elems(cityIds))
    ensures forall d :: d in managed <==> d in cityIds || (d in db && exists a :: a in cityIds && Below(db, a, d))
  {
    managed := AddAll([], cityIds);
    assert ManagedSoFar(db, cityIds, 0, managed) by {
      assert Managed(db, Elems(cityIds[..0])) == {};
    }
    for i := 0 to |cityIds|
      invariant ManagedSoFar(db, cityIds, i, managed)
    {
      var childCities := GetChildCities(db, cityIds[i], true);
      AddChildren(db, cityIds, i, managed, childCities);
      managed := AddAll(managed, childCities);
    }
    assert cityIds[..|cityIds|] == cityIds;
    assert forall d :: d in managed <==> d in Elems(managed);
    assert forall d :: d in cityIds <==> d in Elems(cityIds);
  }

  lemma AddChildren(db: Cities, cityIds: seq<CityId>, i: nat, managed: seq<CityId>, ids: seq<CityId>)
    requires i < |cityIds| && ManagedSoFar(db, cityIds, i, managed) && Lists(db, cityIds[i], true, ids)
    ensures ManagedSoFar(db, cityIds, i + 1, AddAll(managed, ids))
  {
    ManagedOneMore(db, cityIds, i, ids);
    assert cityIds[i] in Elems(cityIds);
  }

  lemma ManagedOneMore(db: Cities, cityIds: seq<CityId>, i: nat, ids: seq<CityId>)
    requires i < |cityIds| && Lists(db, cityIds[i], true, ids)
    ensures Managed(db, Elems(cityIds[..i + 1])) == Managed(db, Elems(cityIds[..i])) + {cityIds[i]} + Elems(ids)
  {
    var c := cityIds[i];
    assert cityIds[..i + 1] == cityIds[..i] + [c];
    assert Elems(cityIds[..i + 1]) == Elems(cityIds[..i]) + {c};
    ManagedIsAClosure(db, Elems(cityIds[..i]), {c});
    forall x | x in Elems(ids) ensures x in Managed(db, {c}) {
      var _ := BelowThroughChild(db, c, x);
      assert c in {c};
    }
    assert Managed(db, {c}) == {c} + Elems(ids);
  }

  predicate IsCityInScope(cityId: CityId, managedCityIds: seq<CityId>) {
    cityId in managedCityIds
  }

  datatype PathEntry = PathEntry(id: CityId, name: string, parentCityId: Option<CityId>)

  function Entry(db: Cities, id: CityId): PathEntry
    requires id in db
  {
    PathEntry(id, db[id].name, db[id].parentCityId)
  }

  /** The id that the loop of getCityPath is about to look up after `n` turns. */
  function Cursor(db: Cities, x: CityId, n: nat): Option<CityId> {
    if n == 0 then Some(x)
    else
      var before := Cursor(db, x, n - 1);
      if before.Some? && Visits(db, before.value) then db[before.value].parentCityId else None
  }

  lemma {:induction false} CursorIsUp(db: Cities, x: CityId, n: nat)
    ensures Up(db, x, n) ==
            var c := Cursor(db, x, n);
            if c.Some? && Visits(db, c.value) then c else None
  {
    if n > 0 {
      CursorIsUp(db, x, n - 1);
      UpAdd(db, x, n - 1, 1);
    }
  }

  /** What the loop finds in turn `n`: the next city of the path from its end, exactly while there is one. */
  lemma PathTurn(db: Cities, x: CityId, n: nat)
    requires WalkEnds(db, x)
    ensures var c, p := Cursor(db, x, n), CityPath(db, x);
            && (n < |p| <==> c.Some? && Visits(db, c.value))
            && (n < |p| ==> p[|p| - 1 - n] == c.value && Cursor(db, x, n + 1) == db[c.value].parentCityId)
  {
    CursorIsUp(db, x, n);
    PathCovers(db, x, n);
  }

  /** `path` holds the rows of the cities `ids`. */
  ghost predicate EntriesOf(db: Cities, ids: seq<CityId>, path: seq<PathEntry>) {
    |path| == |ids| && forall i :: 0 <= i < |ids| ==> ids[i] in db && path[i] == Entry(db, ids[i])
  }

  /** The rows of the cities on the path of `cityId`, root first. */
  method GetCityPath(db: Cities, cityId: CityId) returns (path: seq<PathEntry>)
    requires WalkEnds(db, cityId)
    ensures EntriesOf(db, CityPath(db, cityId), path)
  {
    ghost var goal := CityPath(db, cityId);
    path := [];
    var currentCityId := Some(cityId);
    while currentCityId.Some? && currentCityId.value != ""
      invariant currentCityId == Cursor(db, cityId, |path|)
      invariant |path| <= |goal| && EntriesOf(db, goal[|goal| - |path|..], path)
      decreases |goal| - |path|
    {
      var id := currentCityId.value;
      PathTurn(db, cityId, |path|);
      if id !in db {
        break;
      }
      assert goal[|goal| - 1 - |path|..] == [id] + goal[|goal| - |path|..];
      path := [Entry(db, id)] + path;
      currentCityId := db[id].parentCityId;
    }
    PathTurn(db, cityId, |path|);
  }

  /** The cities a selected city is viewed with: itself, its path, and its active descendants. */
  ghost function Hierarchical(db: Cities, c: CityId): set<CityId> {
    {c} + Elems(CityPath(db, c)) + Descendants(db, c)
  }

  lemma HierarchicalIff(db: Cities, c: CityId, d: CityId)
    ensures d in Hierarchical(db, c) <==> d == c || d in CityPath(db, c) || (d in db && Below(db, c, d))
  {
  }

  method GetHierarchicalCities(db: Cities, cityId: CityId) returns (ids: seq<CityId>)
    requires WalkEnds(db, cityId) && !Below(db, cityId, cityId)
    ensures NoDup(ids)
    ensures Elems(ids) == Hierarchical(db, cityId)
  {
    ids := [cityId];
    var path := GetCityPath(db, cityId);
    var pathIds := seq(|path|, i requires 0 <= i < |path| => path[i].id);
    assert pathIds == CityPath(db, cityId);
    ids := AddAll(ids, pathIds);
    var childCities := GetChildCities(db, cityId, true);
    forall x | x in childCities ensures x in db {
      var _ := BelowThroughChild(db, cityId, x);
    }
    assert Elems(childCities) == Descendants(db, cityId);
    ids := AddAll(ids, childCities);
  }

  /** While every city is active, being viewed together is mutual. */
  lemma HierarchicalIsSymmetric(db: Cities, c: CityId, d: CityId)
    requires "" !in db && forall x :: x in db ==> db[x].isActive
    requires c in db && d in db && WalkEnds(db, c) && WalkEnds(db, d)
    ensures d in Hierarchical(db, c) <==> c in Hierarchical(db, d)
  {
    if c != d {
      OnPathIffBelow(db, c, d);
      OnPathIffBelow(db, d, c);
    }
  }

  lemma OnPathIffBelow(db: Cities, a: CityId, x: CityId)
    requires "" !in db && forall y :: y in db ==> db[y].isActive
    requires a in db && x in db && a != x && WalkEnds(db, x)
    ensures a in CityPath(db, x) <==> Below(db, a, x)
  {
    UpDownDuality(db, a, x);
    var p := CityPath(db, x);
    PathCovers(db, x, 0);
    assert Up(db, x, 0) == Some(x);
    if a in p {
      var i :| 0 <= i < |p| && p[i] == a;
      assert p[|p| - 1] == x;
      forall j | i < j < |p| ensures p[j] in db && db[p[j]].isActive {
        PathCovers(db, x, |p| - 1 - j);
        UpIsARow(db, x, |p| - 1 - j);
      }
    }
  }
}
