/** The sub-service items of apps/core/src/modules/categories/sub-services.service.ts. */
module SubServices {
  import opened Collections
  import S = StableSort

  datatype ItemType = TILE | CATEGORY | MAP

  /** Record ids are compared by the database; any linearly ordered keys do. */
  type RecordId = nat

  datatype Record = Record(categoryId: string, itemType: ItemType, itemId: string,
                           displayOrder: Option<int>, displayName: Option<string>, isActive: bool)

  datatype Tile = Tile(header: string, displayOrder: int, isActive: bool, publishAt: Option<int>,
                       expireAt: Option<int>, cities: set<string>)

  /** `children` are the ids of the active child categories, by name. */
  datatype Category = Category(name: string, isActive: bool, children: seq<string>)

  datatype Tables = Tables(records: map<RecordId, Record>, tiles: map<string, Tile>, categories: map<string, Category>)

  datatype Content = OfTile(tile: Tile) | OfCategory(category: Category)

  datatype Item = Item(id: RecordId, itemType: ItemType, displayOrder: int, itemId: string, name: string,
      content: Content)

  function OrElse<T>(o: Option<T>, default: T): T {
    if o.Some? then o.value else default
  }

  function MapTile(id: RecordId, r: Record, tile: Tile): Item {
    Item(id, TILE, OrElse(r.displayOrder, tile.displayOrder), r.itemId, OrElse(r.displayName, tile.header),
        OfTile(tile))
  }

  function MapCategory(id: RecordId, r: Record, cat: Category): Item {
    Item(id, if r.itemType == MAP then MAP else CATEGORY, OrElse(r.displayOrder, 0), r.itemId,
         OrElse(r.displayName, cat.name), OfCategory(cat))
  }

  /** The tile or category a record refers to exists. */
  predicate Resolves(db: Tables, r: Record) {
    if r.itemType == TILE then r.itemId in db.tiles else r.itemId in db.categories
  }

  datatype Error = UnknownRecord(id: RecordId) | MissingReference(id: RecordId)

  /** loadSingleSubService: one record, whatever the state of what it refers to. */
  function LoadSingle(db: Tables, id: RecordId): Result<Item, Error> {
    if id !in db.records then Err(UnknownRecord(id))
    else
      var r := db.records[id];
      if !Resolves(db, r) then Err(MissingReference(id))
      else if r.itemType == TILE then Ok(MapTile(id, r, db.tiles[r.itemId]))
      else Ok(MapCategory(id, r, db.categories[r.itemId]))
  }

  /** The item is the record's: its own order and name, or else those of the tile or category it refers to. */
  predicate ItemOf(db: Tables, x: Item) {
    && x.id in db.records && x.itemId == db.records[x.id].itemId
    && (db.records[x.id].displayOrder.Some? ==> x.displayOrder == db.records[x.id].displayOrder.value)
    && (db.records[x.id].displayName.Some? ==> x.name == db.records[x.id].displayName.value)
    && if x.content.OfTile? then
         && x.itemType == TILE && db.records[x.id].itemType == TILE
         && x.itemId in db.tiles && db.tiles[x.itemId] == x.content.tile
         && (db.records[x.id].displayOrder == None ==> x.displayOrder == x.content.tile.displayOrder)
         && (db.records[x.id].displayName == None ==> x.name == x.content.tile.header)
       else
         && x.itemType == db.records[x.id].itemType && x.itemType != TILE
         && x.itemId in db.categories && db.categories[x.itemId] == x.content.category
         && (db.records[x.id].displayOrder == None ==> x.displayOrder == 0)
         && (db.records[x.id].displayName == None ==> x.name == x.content.category.name)
  }

  /** The per-record loader gives exactly that item, and fails exactly when the record or its reference is missing. */
  lemma SingleIsItemOf(db: Tables, x: Item)
    ensures LoadSingle(db, x.id) == Ok(x) <==> ItemOf(db, x)
    ensures LoadSingle(db, x.id) == Err(UnknownRecord(x.id)) <==> x.id !in db.records
    ensures LoadSingle(db, x.id).Ok? <==>
            x.id in db.records && db.records[x.id].itemId in
              if db.records[x.id].itemType == TILE then db.tiles.Keys else db.categories.Keys
  {
  }

  /** Active, published, not expired, and placed in the city. */
  predicate TileLive(t: Tile, cityId: string, now: int) {
    && t.isActive
    && (t.publishAt.Some? ==> t.publishAt.value <= now)
    && (t.expireAt.Some? ==> t.expireAt.value > now)
    && cityId in t.cities
  }

  /** The batch shows a record when it is active and refers to a live tile or an active category. */
  predicate Shown(db: Tables, cityId: string, now: int, id: RecordId) {
    && id in db.records && db.records[id].isActive && Resolves(db, db.records[id])
    && if db.records[id].itemType == TILE then TileLive(db.tiles[db.records[id].itemId], cityId, now)
       else db.categories[db.records[id].itemId].isActive
  }

  function OrderKey(): Item -> real {
    (x: Item) => x.displayOrder as real
  }

  function IdRank(): Item -> int {
    (x: Item) => x.id
  }

  /** Ordered by (displayOrder, record id), which also makes the ids distinct. */
  predicate Ordered(items: seq<Item>) {
    forall i, j :: 0 <= i < j < |items| ==>
      items[i].displayOrder < items[j].displayOrder
      || (items[i].displayOrder == items[j].displayOrder && items[i].id < items[j].id)
  }

  /** There is only one such list of the same items. */
  lemma {:induction false} OrderedIsUnique(a: seq<Item>, b: seq<Item>)
    requires Ordered(a) && Ordered(b) && forall x :: x in a <==> x in b
    ensures a == b
  {
    BothEmpty(a, b);
    if a != [] {
      LeastIsFirst(a, b);
      forall x ensures x in a[1..] <==> x in b[1..] {
        RestWithout(a, x);
        RestWithout(b, x);
      }
      OrderedIsUnique(a[1..], b[1..]);
      assert a == [a[0]] + a[1..] && b == [b[0]] + b[1..];
    }
  }

  lemma BothEmpty(a: seq<Item>, b: seq<Item>)
    requires forall x :: x in a <==> x in b
    ensures a == [] <==> b == []
  {
    if a != [] {
      assert a[0] in a;
    }
    if b != [] {
      assert b[0] in b;
    }
  }

  lemma LeastIsFirst(a: seq<Item>, b: seq<Item>)
    requires Ordered(a) && Ordered(b) && a != [] && b != [] && forall x :: x in a <==> x in b
    ensures a[0] == b[0]
  {
    assert a[0] in b && b[0] in a;
  }

  lemma RestWithout(a: seq<Item>, x: Item)
    requires Ordered(a) && a != []
    ensures x in a[1..] <==> x in a && x != a[0]
  {
    assert a == [a[0]] + a[1..];
  }

  predicate AscendingIds(ids: seq<RecordId>) {
    forall i, j :: 0 <= i < j < |ids| ==> ids[i] < ids[j]
  }

  predicate ItemsAscend(items: seq<Item>) {
    forall i, j :: 0 <= i < j < |items| ==> items[i].id < items[j].id
  }

  /** In-place sort by displayOrder of a list that is in record-id order. */
  function Sorted(items: seq<Item>): seq<Item> {
    S.Sort(items, OrderKey())
  }

  lemma SortedIsOrdered(items: seq<Item>)
    requires ItemsAscend(items)
    ensures Ordered(Sorted(items))
    ensures forall x :: x in Sorted(items) <==> x in items
  {
    S.SortIsStable(items, OrderKey(), IdRank());
    S.SortKeepsElements(items, OrderKey());
    var t := Sorted(items);
    forall i, j | 0 <= i < j < |t|
      ensures t[i].displayOrder < t[j].displayOrder || (t[i].displayOrder == t[j].displayOrder && t[i].id < t[j].id)
    {
      assert OrderKey()(t[i]) < OrderKey()(t[j])
             || (OrderKey()(t[i]) == OrderKey()(t[j]) && IdRank()(t[i]) < IdRank()(t[j]));
    }
  }

  /** A query ordered by id. */
  method OrderById(ids: set<RecordId>) returns (s: seq<RecordId>)
    ensures AscendingIds(s) && forall id :: id in s <==> id in ids
  {
    var todo := ids;
    s := [];
    while todo != {}
      invariant todo <= ids && AscendingIds(s)
      invariant forall id :: id in s <==> id in ids && id !in todo
      invariant forall id, rest :: id in s && rest in todo ==> id < rest
      decreases todo
    {
      var m := Least(todo);
      forall k | 0 <= k < |s| ensures s[k] < m {
        assert s[k] in s;
      }
      s := s + [m];
      todo := todo - {m};
    }
  }

  method Least(ids: set<RecordId>) returns (m: RecordId)
    requires ids != {}
    ensures m in ids && forall x :: x in ids ==> m <= x
  {
    m :| m in ids;
    var todo := ids - {m};
    while todo != {}
      invariant m in ids && todo <= ids
      invariant forall x :: x in ids ==> x in todo || m <= x
      decreases todo
    {
      var x :| x in todo;
      todo := todo - {x};
      if x < m {
        m := x;
      }
    }
  }

  // ----- the batch loader -----

  /** The list of one category: the per-record items of exactly its shown records, in order. */
  ghost predicate Lists(db: Tables, cityId: string, now: int, categoryId: string, items: seq<Item>) {
    && Ordered(items)
    && forall x :: x in items <==>
         Shown(db, cityId, now, x.id) && db.records[x.id].categoryId == categoryId && LoadSingle(db, x.id) == Ok(x)
  }

  /** What the record loop has collected from `done`, before sorting. */
  ghost predicate Collected(db: Tables, cityId: string, now: int, done: seq<RecordId>, result: map<string, seq<Item>>) {
    && (forall c :: c in result ==> result[c] != [] && ItemsAscend(result[c]))
    && (forall c, x :: c in result && x in result[c] ==>
          && x.id in done && Shown(db, cityId, now, x.id) && db.records[x.id].categoryId == c
              && LoadSingle(db, x.id) == Ok(x))
    && (forall id :: id in done && Shown(db, cityId, now, id) ==>
          db.records[id].categoryId in result && LoadSingle(db, id).value in result[db.records[id].categoryId])
  }

  method LoadSubServicesForCategories(db: Tables, categoryIds: seq<string>, cityId: string, now: int)
    returns (result: map<string, seq<Item>>)
    ensures forall c :: c in result <==>
              c in categoryIds && exists id :: Shown(db, cityId, now, id) && db.records[id].categoryId == c
    ensures forall c :: c in result ==> Lists(db, cityId, now, c, result[c])
  {
    if |categoryIds| == 0 {
      return map[];
    }
    ghost var records;
    var lists;
    lists, records := LoadUnsorted(db, categoryIds, cityId, now);
    result := map c | c in lists :: Sorted(lists[c]);
    forall c | c in lists ensures Lists(db, cityId, now, c, Sorted(lists[c])) && c in categoryIds {
      CollectedLists(db, categoryIds, cityId, now, records, lists, c);
    }
    forall c | c in categoryIds && (exists id :: Shown(db, cityId, now, id) && db.records[id].categoryId == c)
      ensures c in lists
    {
      var id :| Shown(db, cityId, now, id) && db.records[id].categoryId == c;
      assert id in records;
    }
    forall c | c in lists ensures exists id :: Shown(db, cityId, now, id) && db.records[id].categoryId == c {
      assert lists[c][0] in lists[c];
    }
  }

  /** Exactly which records are shown. */
  lemma ShownIff(db: Tables, cityId: string, now: int, id: RecordId)
    ensures Shown(db, cityId, now, id) <==>
            && id in db.records && db.records[id].isActive
            && var ref := db.records[id].itemId;
               if db.records[id].itemType == TILE then
                 && ref in db.tiles && db.tiles[ref].isActive && cityId in db.tiles[ref].cities
                 && (db.tiles[ref].publishAt == None || db.tiles[ref].publishAt.value <= now)
                 && (db.tiles[ref].expireAt == None || now < db.tiles[ref].expireAt.value)
               else ref in db.categories && db.categories[ref].isActive
  {
  }

  /**
   * What is listed for a category, in terms of the tables: the items of its active records whose
   * tile is active, placed in the city, published and not expired, or whose category is active.
   */
  lemma ListedItems(db: Tables, cityId: string, now: int, c: string, items: seq<Item>)
    requires Lists(db, cityId, now, c, items)
    ensures NoDup(items)
    ensures forall x :: x in items ==>
              && ItemOf(db, x) && db.records[x.id].categoryId == c && db.records[x.id].isActive
              && if x.content.OfTile? then
                   var t := x.content.tile;
                   && t.isActive && cityId in t.cities && (t.publishAt == None || t.publishAt.value <= now)
                   && (t.expireAt == None || now < t.expireAt.value)
                 else x.content.category.isActive
    ensures forall x: Item ::
              (&& ItemOf(db, x) && db.records[x.id].categoryId == c && db.records[x.id].isActive
               && if x.content.OfTile? then
                    var t := x.content.tile;
                    && t.isActive && cityId in t.cities && (t.publishAt == None || t.publishAt.value <= now)
                    && (t.expireAt == None || now < t.expireAt.value)
                  else x.content.category.isActive) ==>
                x in items
  {
    forall x: Item ensures LoadSingle(db, x.id) == Ok(x) <==> ItemOf(db, x) {
      SingleIsItemOf(db, x);
    }
  }

  /** The three queries and the record loop; `records` are the active records of the categories, by id. */
  method LoadUnsorted(db: Tables, categoryIds: seq<string>, cityId: string, now: int)
    returns (lists: map<string, seq<Item>>, ghost records: seq<RecordId>)
    ensures forall id :: id in records <==>
              id in db.records && db.records[id].categoryId in categoryIds && db.records[id].isActive
    ensures Collected(db, cityId, now, records, lists)
  {
    var wanted := set id | id in db.records && db.records[id].categoryId in categoryIds && db.records[id].isActive;
    var found := OrderById(wanted);
    records := found;
    var tileIds := set id | id in wanted && db.records[id].itemType == TILE :: db.records[id].itemId;
    var catIds := set id | id in wanted && db.records[id].itemType != TILE :: db.records[id].itemId;
    var tileMap := map t | t in tileIds && t in db.tiles && TileLive(db.tiles[t], cityId, now) :: db.tiles[t];
    var catMap := map c | c in catIds && c in db.categories && db.categories[c].isActive :: db.categories[c];
    lists := CollectItems(db, cityId, now, found, tileMap, catMap);
  }

  lemma CollectedLists(db: Tables, categoryIds: seq<string>, cityId: string, now: int, records: seq<RecordId>,
                       lists: map<string, seq<Item>>, c: string)
    requires Collected(db, cityId, now, records, lists) && c in lists
    requires forall id :: id in records <==>
              id in db.records && db.records[id].categoryId in categoryIds && db.records[id].isActive
    ensures Lists(db, cityId, now, c, Sorted(lists[c])) && c in categoryIds
  {
    SortedIsOrdered(lists[c]);
    assert lists[c][0] in lists[c];
    assert lists[c][0].id in records;
    forall x: Item | Shown(db, cityId, now, x.id) && db.records[x.id].categoryId == c && LoadSingle(db, x.id) == Ok(x)
      ensures x in lists[c]
    {
      assert x.id in records;
    }
  }

  /** The loop over the records; the maps hold what the two queries found. */
  method CollectItems(db: Tables, cityId: string, now: int, records: seq<RecordId>,
                      tileMap: map<string, Tile>, catMap: map<string, Category>)
    returns (result: map<string, seq<Item>>)
    requires AscendingIds(records)
    requires forall id :: id in records ==> id in db.records && db.records[id].isActive
    requires forall id :: id in records && db.records[id].itemType == TILE ==>
               var t := db.records[id].itemId;
               (t in tileMap <==> t in db.tiles && TileLive(db.tiles[t], cityId, now))
                   && (t in tileMap ==> tileMap[t] == db.tiles[t])
    requires forall id :: id in records && db.records[id].itemType != TILE ==>
               var c := db.records[id].itemId;
               (c in catMap <==> c in db.categories && db.categories[c].isActive)
                   && (c in catMap ==> catMap[c] == db.categories[c])
    ensures Collected(db, cityId, now, records, result)
  {
    result := map[];
    for i := 0 to |records|
      invariant Collected(db, cityId, now, records[..i], result)
    {
      var id := records[i];
      assert id in records;
      assert records[..i + 1] == records[..i] + [id];
      var r := db.records[id];
      var list := if r.categoryId in result then result[r.categoryId] else [];
      if r.itemType == TILE {
        if r.itemId !in tileMap {
          continue;
        }
        list := list + [MapTile(id, r, tileMap[r.itemId])];
      } else {
        if r.itemId !in catMap {
          continue;
        }
        list := list + [MapCategory(id, r, catMap[r.itemId])];
      }
      PushKeepsCollected(db, cityId, now, records, i, result, list[|list| - 1]);
      result := result[r.categoryId := list];
    }
    assert records[..|records|] == records;
  }

  lemma PushKeepsCollected(db: Tables, cityId: string, now: int, records: seq<RecordId>, i: nat,
                           result: map<string, seq<Item>>, x: Item)
    requires AscendingIds(records) && i < |records|
    requires Collected(db, cityId, now, records[..i], result)
    requires Shown(db, cityId, now, records[i]) && LoadSingle(db, records[i]) == Ok(x)
    ensures var c := db.records[records[i]].categoryId;
            Collected(db, cityId, now, records[..i + 1], result[c := (if c in result then result[c] else []) + [x]])
  {
    var c := db.records[records[i]].categoryId;
    var list := if c in result then result[c] else [];
    assert records[..i + 1] == records[..i] + [records[i]];
    forall k | 0 <= k < |list| ensures list[k].id < x.id {
      assert list[k] in result[c];
      var m :| 0 <= m < i && records[m] == list[k].id;
    }
  }

  // ----- reordering -----

  datatype Move = Move(id: RecordId, displayOrder: int)

  /** The updates of one transaction, in turn. */
  function Moved(records: map<RecordId, Record>, moves: seq<Move>): map<RecordId, Record>
    requires forall m :: m in moves ==> m.id in records
  {
    if moves == [] then records
    else
      var init, last := moves[..|moves| - 1], moves[|moves| - 1];
      var before := Moved(records, init);
      if last.id in before then before[last.id := before[last.id].(displayOrder := Some(last.displayOrder))] else before
  }

  /** The order a record is given: that of its last listed move. */
  function LastOrder(moves: seq<Move>, id: RecordId): Option<int> {
    if moves == [] then None
    else if moves[|moves| - 1].id == id then Some(moves[|moves| - 1].displayOrder)
    else LastOrder(moves[..|moves| - 1], id)
  }

  function Reordered(r: Record, order: Option<int>): Record {
    if order.Some? then r.(displayOrder := order) else r
  }

  /** Only listed records change, only in their order, and to the order last given. */
  lemma {:induction false} MovedTouchesOnlyListed(records: map<RecordId, Record>, moves: seq<Move>)
    requires forall m :: m in moves ==> m.id in records
    ensures Moved(records, moves).Keys == records.Keys
    ensures forall id :: id in records ==> Moved(records, moves)[id] == Reordered(records[id], LastOrder(moves, id))
  {
    if moves != [] {
      MovedTouchesOnlyListed(records, moves[..|moves| - 1]);
      assert moves[|moves| - 1] in moves;
    }
  }

  /** An id is a moved category's own exactly when its record is active and belongs to the category. */
  lemma InCategoryIff(records: map<RecordId, Record>, categoryId: string, id: RecordId)
    ensures InCategory(records, categoryId, id) <==>
            exists r :: (id, r) in records.Items && r.categoryId == categoryId && r.isActive
  {
    if InCategory(records, categoryId, id) {
      assert (id, records[id]) in records.Items;
    }
  }

  predicate InCategory(records: map<RecordId, Record>, categoryId: string, id: RecordId) {
    id in records && records[id].categoryId == categoryId && records[id].isActive
  }

  class SubServicesService {
    var db: Tables

    constructor (db: Tables)
      ensures this.db == db
    {
      this.db := db;
    }

    /**
     * An unknown id changes nothing. Otherwise the moves are applied, and the category's active
     * records are returned in order, unless one of them refers to something that does not exist:
     * then the call fails although the moves have been applied.
     */
    method ReorderSubServices(categoryId: string, items: seq<Move>) returns (r: Result<seq<Item>, Error>)
      modifies this
      ensures (exists m :: m in items && !InCategory(old(db.records), categoryId, m.id)) ==>
                r.Err? && r.error.UnknownRecord? && db == old(db)
      ensures (forall m :: m in items ==> InCategory(old(db.records), categoryId, m.id)) ==>
                && db == old(db).(records := Moved(old(db.records), items))
                && (r.Ok? <==> forall id :: InCategory(db.records, categoryId, id) ==> Resolves(db, db.records[id]))
                && (r.Ok? ==> Ordered(r.value) && forall x :: x in r.value <==>
                      InCategory(db.records, categoryId, x.id) && LoadSingle(db, x.id) == Ok(x))
      ensures (r.Err? && r.error.UnknownRecord?) <==>
              exists m ::
                && m in items
                && (m.id !in old(db.records) || old(db.records)[m.id].categoryId != categoryId
                    || !old(db.records)[m.id].isActive)
    {
      var existingIds := set id | id in db.records && InCategory(db.records, categoryId, id);
      for i := 0 to |items|
        invariant forall k :: 0 <= k < i ==> items[k].id in existingIds
      {
        if items[i].id !in existingIds {
          assert items[i] in items;
          return Err(UnknownRecord(items[i].id));
        }
      }
      ghost var before := db;
      var records := ApplyMoves(db.records, items);
      db := db.(records := records);
      MovedTouchesOnlyListed(before.records, items);
      r := LoadInOrder(db, categoryId);
    }
  }

  /** The reload after a reorder: every active record of the category, by id, then sorted. */
  method LoadInOrder(db: Tables, categoryId: string) returns (r: Result<seq<Item>, Error>)
    ensures r.Ok? <==> forall id :: InCategory(db.records, categoryId, id) ==> Resolves(db, db.records[id])
    ensures r.Ok? ==> Ordered(r.value) && forall x :: x in r.value <==>
              InCategory(db.records, categoryId, x.id) && LoadSingle(db, x.id) == Ok(x)
    ensures r.Err? ==> r.error.MissingReference? && InCategory(db.records, categoryId, r.error.id)
                       && !Resolves(db, db.records[r.error.id])
  {
    var updated := OrderById(set id | id in db.records && InCategory(db.records, categoryId, id));
    var dtos: seq<Item> := [];
    for i := 0 to |updated|
      invariant ItemsAscend(dtos)
      invariant forall id :: id in updated[..i] ==> LoadSingle(db, id).Ok?
      invariant forall x :: x in dtos <==> x.id in updated[..i] && LoadSingle(db, x.id) == Ok(x)
    {
      var id := updated[i];
      assert id in updated;
      var one := LoadSingle(db, id);
      if one.Err? {
        return Err(one.error);
      }
      assert updated[..i + 1] == updated[..i] + [id];
      forall k | 0 <= k < |dtos| ensures dtos[k].id < id {
        assert dtos[k] in dtos;
        var m :| 0 <= m < i && updated[m] == dtos[k].id;
      }
      dtos := dtos + [one.value];
    }
    assert updated[..|updated|] == updated;
    SortedIsOrdered(dtos);
    forall id | InCategory(db.records, categoryId, id) ensures Resolves(db, db.records[id]) {
      assert id in updated;
    }
    return Ok(Sorted(dtos));
  }

  method ApplyMoves(records: map<RecordId, Record>, items: seq<Move>) returns (r: map<RecordId, Record>)
    requires forall m :: m in items ==> m.id in records
    ensures r == Moved(records, items)
  {
    r := records;
    for i := 0 to |items|
      invariant r == Moved(records, items[..i])
    {
      assert items[..i + 1][..i] == items[..i];
      MovedTouchesOnlyListed(records, items[..i]);
      assert items[i] in items;
      r := r[items[i].id := r[items[i].id].(displayOrder := Some(items[i].displayOrder))];
    }
    assert items[..|items|] == items;
  }
}
