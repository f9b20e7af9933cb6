/**
 * The translations table, and the read side of libs/translations: single lookups, batch prefetch
 * and the jobs that reads emit.
 */
module Translations {
  import opened Collections
  import opened Keys
  import opened Text

  /** The unique key of an entity translation. Rows with a null component are found by neither read path. */
  datatype Slot = Slot(entityType: string, entityId: string, field: string, locale: string)

  datatype Translation = Translation(value: string, sourceHash: Option<string>)

  type Table = map<Slot, Translation>

  /** A row together with its identity. */
  datatype Found = Found(slot: Slot, row: Translation)

  datatype Entity = Entity(entityType: string, entityId: string)

  datatype Job = Job(entityType: string, entityId: string, field: string, sourceLocale: string,
                     targetLocales: seq<string>, text: string, sourceHash: string)

  /** Service settings; `hash` stands for the SHA-256 digest in hexadecimal. */
  datatype Config = Config(defaultSourceLocale: string, autoTranslateOnRead: bool, hasClient: bool,
      hash: string -> string)

  ghost predicate ValidConfig(cfg: Config) {
    forall text :: cfg.hash(text) != ""
  }

  function Lookup(db: Table, slot: Slot): Option<Found> {
    if slot in db then Some(Found(slot, db[slot])) else None
  }

  /** hasTranslationWithHash. */
  predicate HasHash(db: Table, slot: Slot, hash: string) {
    slot in db && db[slot].sourceHash == Some(hash)
  }

  /** A text that `trim` empties. */
  predicate Blank(text: string) {
    Trim(text) == ""
  }

  /** The blank texts are those of white space alone. */
  lemma BlankIsSpace(text: string)
    ensures Blank(text) <==> AllSpace(text)
  {
    var i, j := TrimCuts(text);
    if AllSpace(text) {
      TrimSpace(text);
    }
  }

  datatype Read = Read(entityType: string, entityId: string, field: string, locale: string,
                       sourceText: Option<string>, sourceLocale: Option<string>)

  function SlotOf(r: Read): Slot {
    Slot(r.entityType, r.entityId, r.field, r.locale)
  }

  function EffectiveSourceLocale(cfg: Config, r: Read): string {
    if r.sourceLocale.Some? && r.sourceLocale.value != "" then r.sourceLocale.value else cfg.defaultSourceLocale
  }

  /** The row was made from another text than the one given now. */
  predicate Stale(cfg: Config, row: Translation, r: Read) {
    && r.sourceText.Some? && row.sourceHash.Some? && row.sourceHash.value != ""
    && cfg.hash(r.sourceText.value) != row.sourceHash.value
  }

  function SourceOrEmpty(r: Read): string {
    if r.sourceText.Some? then r.sourceText.value else ""
  }

  /** What a read returns for the row it found. */
  function ReadText(cfg: Config, found: Option<Found>, r: Read): string {
    if found.Some? && !Stale(cfg, found.value.row, r) then found.value.row.value else SourceOrEmpty(r)
  }

  /** A read asks for work when it has source text in another locale and no translation of that text. */
  predicate WantsJob(cfg: Config, found: Option<Found>, r: Read) {
    && cfg.autoTranslateOnRead && cfg.hasClient && r.locale != EffectiveSourceLocale(cfg, r)
    && if found.Some? then Stale(cfg, found.value.row, r) else SourceOrEmpty(r) != ""
  }

  function JobFor(cfg: Config, r: Read): Job {
    Job(r.entityType, r.entityId, r.field, EffectiveSourceLocale(cfg, r), [r.locale],
        SourceOrEmpty(r), cfg.hash(SourceOrEmpty(r)))
  }

  function JobsOf(cfg: Config, found: Option<Found>, r: Read): seq<Job> {
    if WantsJob(cfg, found, r) then [JobFor(cfg, r)] else []
  }

  // ----- prefetching -----

  function MapKey(entityType: string, entityId: string, field: string): string {
    entityType + ":" + entityId + ":" + field
  }

  function KeyOf(s: Slot): string {
    MapKey(s.entityType, s.entityId, s.field)
  }

  type TranslationMap = map<string, Found>

  /** The rows that point lookups for the listed entities could find. */
  predicate Wanted(entities: seq<Entity>, locale: string, s: Slot) {
    s.locale == locale && Entity(s.entityType, s.entityId) in entities
  }

  predicate Named(s: Slot) {
    s.entityType != "" && s.entityId != "" && s.field != ""
  }

  /** Every named wanted row has its key in the map, and every entry is a named wanted row with that key. */
  ghost predicate Prefetched(db: Table, entities: seq<Entity>, locale: string, m: TranslationMap) {
    && (forall k :: k in m ==> var s := m[k].slot;
          Wanted(entities, locale, s) && Named(s) && KeyOf(s) == k && Lookup(db, s) == Some(m[k]))
    && (forall s :: s in db && Wanted(entities, locale, s) && Named(s) ==> KeyOf(s) in m)
  }

  function FromMap(m: TranslationMap, entityType: string, entityId: string, field: string): Option<Found> {
    var k := MapKey(entityType, entityId, field);
    if k in m then Some(m[k]) else None
  }

  /** Grouping the ids by type: the group of a type holds exactly the ids listed with it. */
  ghost predicate GroupsOf(byType: map<string, seq<string>>, entities: seq<Entity>) {
    forall t, id :: (t in byType && id in byType[t]) <==> Entity(t, id) in entities
  }

  lemma GroupOneMore(byType: map<string, seq<string>>, entities: seq<Entity>, e: Entity)
    requires GroupsOf(byType, entities)
    ensures var before := if e.entityType in byType then byType[e.entityType] else [];
            GroupsOf(byType[e.entityType := before + [e.entityId]], entities + [e])
  {
  }

  /** findByEntitiesAndLocale: the OR of one IN clause per type finds the wanted rows, in any order. */
  method FindByEntitiesAndLocale(db: Table, entities: seq<Entity>, locale: string) returns (rows: seq<Found>)
    ensures forall f :: f in rows <==> Wanted(entities, locale, f.slot) && Lookup(db, f.slot) == Some(f)
  {
    if |entities| == 0 {
      return [];
    }
    var byType: map<string, seq<string>> := map[];
    for i := 0 to |entities|
      invariant GroupsOf(byType, entities[..i])
    {
      var e := entities[i];
      GroupOneMore(byType, entities[..i], e);
      assert entities[..i + 1] == entities[..i] + [e];
      if e.entityType in byType {
        byType := byType[e.entityType := byType[e.entityType] + [e.entityId]];
      } else {
        byType := byType[e.entityType := [e.entityId]];
        assert byType[e.entityType] == [] + [e.entityId];
      }
    }
    assert entities[..|entities|] == entities;
    var hits := set s | s in db && s.locale == locale && s.entityType in byType && s.entityId in byType[s.entityType];
    rows := [];
    while hits != {}
      invariant forall s :: s in hits ==> s in db && Wanted(entities, locale, s)
      invariant forall f :: f in rows || (f.slot in hits && f.row == db[f.slot]) <==>
                            Wanted(entities, locale, f.slot) && Lookup(db, f.slot) == Some(f)
      decreases hits
    {
      var s :| s in hits;
      rows := rows + [Found(s, db[s])];
      hits := hits - {s};
    }
  }

  class TranslationService {
    const cfg: Config
    var db: Table
    var emitted: seq<Job>

    constructor (cfg: Config, db: Table)
      ensures this.cfg == cfg && this.db == db && emitted == []
    {
      this.cfg, this.db, emitted := cfg, db, [];
    }

    method PrefetchTranslations(entities: seq<Entity>, locale: string) returns (m: TranslationMap)
      ensures Prefetched(db, entities, locale, m)
      ensures forall k :: k in m ==>
                var s := m[k].slot;
                && s in db && m[k].row == db[s] && s.locale == locale && Entity(s.entityType, s.entityId) in entities
                && "" !in [s.entityType, s.entityId, s.field] && k == s.entityType + ":" + s.entityId + ":" + s.field
      ensures forall s :: s in db && s.locale == locale && Entity(s.entityType, s.entityId) in entities
                          && "" !in [s.entityType, s.entityId, s.field] ==>
                s.entityType + ":" + s.entityId + ":" + s.field in m
    {
      var translations := FindByEntitiesAndLocale(db, entities, locale);
      m := map[];
      for i := 0 to |translations|
        invariant forall k :: k in m ==> m[k] in translations && Named(m[k].slot) && KeyOf(m[k].slot) == k
        invariant forall k :: 0 <= k < i && Named(translations[k].slot) ==> KeyOf(translations[k].slot) in m
      {
        var t := translations[i];
        if t.slot.entityType != "" && t.slot.entityId != "" && t.slot.field != "" {
          m := m[MapKey(t.slot.entityType, t.slot.entityId, t.slot.field) := t];
        }
      }
      forall s | s in db && Wanted(entities, locale, s) && Named(s) ensures KeyOf(s) in m {
        assert Found(s, db[s]) in translations;
      }
    }

    method GetTranslation(r: Read) returns (text: string)
      modifies this`emitted
      ensures text == ReadText(cfg, Lookup(db, SlotOf(r)), r)
      ensures emitted == old(emitted) + JobsOf(cfg, Lookup(db, SlotOf(r)), r)
      ensures var found := Lookup(db, Slot(r.entityType, r.entityId, r.field, r.locale));
              text == if found.Some? && (r.sourceText == None || found.value.row.sourceHash == None
                                         || found.value.row.sourceHash == Some("")
                                         || found.value.row.sourceHash == Some(cfg.hash(r.sourceText.value)))
                      then found.value.row.value
                      else if r.sourceText.Some? then r.sourceText.value else ""
      ensures var found := Lookup(db, Slot(r.entityType, r.entityId, r.field, r.locale));
              var source := if r.sourceLocale == None || r.sourceLocale == Some("") then cfg.defaultSourceLocale
                  else r.sourceLocale.value;
              var needed := r.sourceText.Some? &&
                            if found.Some? then
                              && found.value.row.sourceHash != None && found.value.row.sourceHash != Some("")
                              && found.value.row.sourceHash != Some(cfg.hash(r.sourceText.value))
                            else r.sourceText != Some("");
              emitted == old(emitted) +
                if cfg.autoTranslateOnRead && cfg.hasClient && r.locale != source && needed then
                  [Job(r.entityType, r.entityId, r.field, source, [r.locale], r.sourceText.value,
                       cfg.hash(r.sourceText.value))]
                else []
    {
      var slot := Slot(r.entityType, r.entityId, r.field, r.locale);
      if slot in db {
        var translation := db[slot];
        if r.sourceText.Some? && translation.sourceHash.Some? && translation.sourceHash.value != "" {
          var currentHash := cfg.hash(r.sourceText.value);
          if currentHash != translation.sourceHash.value {
            var source := EffectiveSourceLocale(cfg, r);
            if cfg.autoTranslateOnRead && r.locale != source && cfg.hasClient {
              Emit(Job(r.entityType, r.entityId, r.field, source, [r.locale], r.sourceText.value, currentHash));
            }
            return r.sourceText.value;
          }
        }
        return translation.value;
      }
      var defaultText := SourceOrEmpty(r);
      var source := EffectiveSourceLocale(cfg, r);
      if cfg.autoTranslateOnRead && defaultText != "" && r.locale != source {
        if cfg.hasClient {
          Emit(Job(r.entityType, r.entityId, r.field, source, [r.locale], defaultText, cfg.hash(defaultText)));
        }
      }
      return defaultText;
    }

    method GetTranslationFromMap(m: TranslationMap, r: Read) returns (text: string)
      modifies this`emitted
      ensures text == ReadText(cfg, FromMap(m, r.entityType, r.entityId, r.field), r)
      ensures emitted == old(emitted) + JobsOf(cfg, FromMap(m, r.entityType, r.entityId, r.field), r)
      ensures var found := FromMap(m, r.entityType, r.entityId, r.field);
              text == if found.Some? && (r.sourceText == None || found.value.row.sourceHash == None
                                         || found.value.row.sourceHash == Some("")
                                         || found.value.row.sourceHash == Some(cfg.hash(r.sourceText.value)))
                      then found.value.row.value
                      else if r.sourceText.Some? then r.sourceText.value else ""
      ensures var found := FromMap(m, r.entityType, r.entityId, r.field);
              var source := if r.sourceLocale == None || r.sourceLocale == Some("") then cfg.defaultSourceLocale
                  else r.sourceLocale.value;
              var needed := r.sourceText.Some? &&
                            if found.Some? then
                              && found.value.row.sourceHash != None && found.value.row.sourceHash != Some("")
                              && found.value.row.sourceHash != Some(cfg.hash(r.sourceText.value))
                            else r.sourceText != Some("");
              emitted == old(emitted) +
                if cfg.autoTranslateOnRead && cfg.hasClient && r.locale != source && needed then
                  [Job(r.entityType, r.entityId, r.field, source, [r.locale], r.sourceText.value,
                       cfg.hash(r.sourceText.value))]
                else []
    {
      var key := MapKey(r.entityType, r.entityId, r.field);
      if key in m {
        var translation := m[key].row;
        if r.sourceText.Some? && translation.sourceHash.Some? && translation.sourceHash.value != "" {
          var currentHash := cfg.hash(r.sourceText.value);
          if currentHash != translation.sourceHash.value {
            var source := EffectiveSourceLocale(cfg, r);
            if cfg.autoTranslateOnRead && r.locale != source && cfg.hasClient {
              Emit(Job(r.entityType, r.entityId, r.field, source, [r.locale], r.sourceText.value, currentHash));
            }
            return r.sourceText.value;
          }
        }
        return translation.value;
      }
      var defaultText := SourceOrEmpty(r);
      var source := EffectiveSourceLocale(cfg, r);
      if cfg.autoTranslateOnRead && defaultText != "" && r.locale != source {
        if cfg.hasClient {
          Emit(Job(r.entityType, r.entityId, r.field, source, [r.locale], defaultText, cfg.hash(defaultText)));
        }
      }
      return defaultText;
    }

    method Emit(job: Job)
      modifies this`emitted
      ensures emitted == old(emitted) + [job]
    {
      emitted := emitted + [job];
    }
  }

  // ----- when the batch agrees with single lookups -----

  /** For every listed entity and asked field the map holds the row that a single lookup finds. */
  ghost predicate Agrees(db: Table, entities: seq<Entity>, locale: string, fields: set<string>, m: TranslationMap) {
    forall t, id, f :: Entity(t, id) in entities && f in fields ==>
      FromMap(m, t, id, f) == Lookup(db, Slot(t, id, f, locale))
  }

  /**
   * No wanted row of an asked field has an empty component, and no wanted row has the key of an
   * asked (entity, field) other than its own.
   */
  ghost predicate Separated(db: Table, entities: seq<Entity>, locale: string, fields: set<string>) {
    forall s :: s in db && Wanted(entities, locale, s) ==>
      && (s.field in fields ==> Named(s))
      && (Named(s) ==> forall t, id, f :: Entity(t, id) in entities && f in fields && MapKey(t, id, f) == KeyOf(s) ==>
            s == Slot(t, id, f, locale))
  }

  lemma SeparatedAgrees(db: Table, entities: seq<Entity>, locale: string, fields: set<string>, m: TranslationMap)
    requires Separated(db, entities, locale, fields) && Prefetched(db, entities, locale, m)
    ensures Agrees(db, entities, locale, fields, m)
  {
    forall t, id, f | Entity(t, id) in entities && f in fields
      ensures FromMap(m, t, id, f) == Lookup(db, Slot(t, id, f, locale))
    {
      var s := Slot(t, id, f, locale);
      if s in db {
        assert Wanted(entities, locale, s) && Named(s) && KeyOf(s) == MapKey(t, id, f);
      }
    }
  }

  /** Some prefetched map, and one that gives a chosen row its key. */
  lemma PrefetchedMapWith(db: Table, entities: seq<Entity>, locale: string, s: Slot) returns (m: TranslationMap)
    ensures Prefetched(db, entities, locale, m)
    ensures s in db && Wanted(entities, locale, s) && Named(s) ==> m[KeyOf(s)] == Found(s, db[s])
  {
    var slots := set x | x in db && Wanted(entities, locale, x) && Named(x);
    var keys := set x | x in slots :: KeyOf(x);
    m := map k | k in keys :: var x :| x in slots && KeyOf(x) == k; Found(x, db[x]);
    if s in slots {
      m := m[KeyOf(s) := Found(s, db[s])];
    }
  }

  /** The batch agrees with single lookups, whatever order rows come in, exactly when keys separate the rows. */
  lemma BatchAgreesIff(db: Table, entities: seq<Entity>, locale: string, fields: set<string>)
    ensures Separated(db, entities, locale, fields) <==>
            forall m :: Prefetched(db, entities, locale, m) ==> Agrees(db, entities, locale, fields, m)
  {
    if Separated(db, entities, locale, fields) {
      forall m | Prefetched(db, entities, locale, m) ensures Agrees(db, entities, locale, fields, m) {
        SeparatedAgrees(db, entities, locale, fields, m);
      }
    } else {
      var s :| s in db && Wanted(entities, locale, s) && !(
        && (s.field in fields ==> Named(s))
        && (Named(s) ==> forall t, id, f :: Entity(t, id) in entities && f in fields && MapKey(t, id, f) == KeyOf(s) ==>
              s == Slot(t, id, f, locale)));
      var m := PrefetchedMapWith(db, entities, locale, s);
      if Named(s) {
        var t, id, f :| Entity(t, id) in entities && f in fields && MapKey(t, id, f) == KeyOf(s)
            && s != Slot(t, id, f, locale);
        assert FromMap(m, t, id, f) == Some(Found(s, db[s]));
      } else {
        assert FromMap(m, s.entityType, s.entityId, s.field) != Lookup(db, s);
      }
      assert !Agrees(db, entities, locale, fields, m);
    }
  }

  /** Keys are injective when types and fields are colon-free; ids may contain colons. */
  lemma MapKeyInjective(t: string, id: string, f: string, t': string, id': string, f': string)
    requires ColonFree(t) && ColonFree(t') && ColonFree(f) && ColonFree(f')
    requires MapKey(t, id, f) == MapKey(t', id', f')
    ensures t == t' && id == id' && f == f'
  {
    LastComponent(t + ":" + id, f, t' + ":" + id', f');
    FirstComponent(t, id, t', id');
  }

  /** Colon-free types and fields and non-empty components separate the rows. */
  lemma ColonFreeSeparates(db: Table, entities: seq<Entity>, locale: string, fields: set<string>)
    requires forall e :: e in entities ==> ColonFree(e.entityType) && e.entityType != "" && e.entityId != ""
    requires forall f :: f in fields ==> ColonFree(f) && f != ""
    requires forall s :: s in db && Wanted(entities, locale, s) ==> ColonFree(s.field)
    ensures Separated(db, entities, locale, fields)
  {
    forall s | s in db && Wanted(entities, locale, s)
      ensures s.field in fields ==> Named(s)
      ensures forall t, id, f :: Entity(t, id) in entities && f in fields && MapKey(t, id, f) == KeyOf(s) ==>
                s == Slot(t, id, f, locale)
    {
      assert Entity(s.entityType, s.entityId) in entities;
      forall t, id, f | Entity(t, id) in entities && f in fields && MapKey(t, id, f) == KeyOf(s)
        ensures s == Slot(t, id, f, locale)
      {
        assert ColonFree(Entity(t, id).entityType) && ColonFree(Entity(s.entityType, s.entityId).entityType);
        MapKeyInjective(t, id, f, s.entityType, s.entityId, s.field);
      }
    }
  }

  /** So a read through the map returns the text, and asks for the jobs, of the single read. */
  lemma BatchReadIsSingleRead(cfg: Config, db: Table, entities: seq<Entity>, fields: set<string>, m: TranslationMap,
      r: Read)
    requires Prefetched(db, entities, r.locale, m) && Separated(db, entities, r.locale, fields)
    requires Entity(r.entityType, r.entityId) in entities && r.field in fields
    ensures ReadText(cfg, FromMap(m, r.entityType, r.entityId, r.field), r) == ReadText(cfg, Lookup(db, SlotOf(r)), r)
    ensures JobsOf(cfg, FromMap(m, r.entityType, r.entityId, r.field), r) == JobsOf(cfg, Lookup(db, SlotOf(r)), r)
  {
    SeparatedAgrees(db, entities, r.locale, fields, m);
  }
}
