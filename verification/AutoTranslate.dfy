/**
 * autoTranslate of libs/translations/src/translation.service.ts: any number of calls whose
 * per-locale tasks share one limiter and settle in any order, each with any outcome.
 */
module AutoTranslate {
  import opened Collections
  import L = Limiter
  import opened Translations

  datatype Call = Call(entityType: string, entityId: string, field: string, sourceLocale: string,
                       targetLocales: seq<string>, text: string, sourceHash: Option<string>)

  function CallSlot(c: Call, locale: string): Slot {
    Slot(c.entityType, c.entityId, c.field, locale)
  }

  /** `sourceHash || computeSourceHash(text)`. */
  function HashOf(cfg: Config, c: Call): string {
    if c.sourceHash.Some? && c.sourceHash.value != "" then c.sourceHash.value else cfg.hash(c.text)
  }

  /** The call's own hash, if it brings one that is not empty, else that of its text. */
  lemma HashOfCall(cfg: Config, c: Call, h: string)
    ensures HashOf(cfg, c) == h <==>
            if c.sourceHash == None || c.sourceHash == Some("") then cfg.hash(c.text) == h else c.sourceHash == Some(h)
  {
  }

  /** The locale needs the provider: it is not the source's and has no row made from this text. */
  predicate Needs(cfg: Config, db: Table, c: Call, locale: string) {
    locale != c.sourceLocale && !HasHash(db, CallSlot(c, locale), HashOf(cfg, c))
  }

  /**
   * The locales found to need the provider, in order, among the first `n`; `seen[i]` is the table
   * that the lookup of locale `i` saw.
   */
  function Missing(cfg: Config, seen: seq<Table>, c: Call, n: nat): (r: seq<string>)
    requires n <= |c.targetLocales| == |seen|
    ensures forall l :: l in r <==> exists i :: 0 <= i < n && c.targetLocales[i] == l && Needs(cfg, seen[i], c, l)
  {
    if n == 0 then []
    else
      var before, l := Missing(cfg, seen, c, n - 1), c.targetLocales[n - 1];
      if Needs(cfg, seen[n - 1], c, l) then before + [l] else before
  }

  /** The locales a call starts a task for: none when the text is blank. */
  function Started(cfg: Config, seen: seq<Table>, c: Call): seq<string>
    requires |seen| == |c.targetLocales|
  {
    if Blank(c.text) then [] else Missing(cfg, seen, c, |c.targetLocales|)
  }

  /** The row of the locale carries the hash that the call brings or, when it brings none, the hash of its text. */
  predicate MadeFrom(cfg: Config, db: Table, c: Call, l: string) {
    var s := Slot(c.entityType, c.entityId, c.field, l);
    && s in db && db[s].sourceHash.Some?
    && if c.sourceHash == None || c.sourceHash == Some("") then db[s].sourceHash.value == cfg.hash(c.text)
       else db[s].sourceHash == c.sourceHash
  }

  /** The filtering loop; other operations may change the table between its lookups. */
  method LocalesToTranslate(cfg: Config, seen: seq<Table>, c: Call) returns (locales: seq<string>)
    requires |seen| == |c.targetLocales|
    ensures locales == Started(cfg, seen, c)
    ensures forall l :: l in locales <==>
              && !Blank(c.text) && l != c.sourceLocale
              && exists i :: 0 <= i < |seen| && c.targetLocales[i] == l && !MadeFrom(cfg, seen[i], c, l)
  {
    if Blank(c.text) {
      return [];
    }
    var computedHash := if c.sourceHash.Some? && c.sourceHash.value != "" then c.sourceHash.value else cfg.hash(c.text);
    locales := [];
    for i := 0 to |c.targetLocales|
      invariant locales == Missing(cfg, seen, c, i)
    {
      var target := c.targetLocales[i];
      if target == c.sourceLocale {
        continue;
      }
      var hasMatchingHash := HasHash(seen[i], CallSlot(c, target), computedHash);
      if !hasMatchingHash {
        locales := locales + [target];
      }
    }
  }

  // ----- tasks -----

  /** What the provider did for a task; other failures include those of the database. */
  datatype Outcome = Translated(value: string) | RateLimited | Failed

  datatype Task = Task(slot: Slot, hash: string)

  /** The row was written: the provider answered, and the upsert accepts the row's components. */
  predicate Succeeds(t: Task, o: Outcome) {
    o.Translated? && Named(t.slot)
  }

  function Upserted(db: Table, t: Task, o: Outcome): Table {
    if Succeeds(t, o) then db[t.slot := Translation(o.value, Some(t.hash))] else db
  }

  /** How one task's promise settles: only a rate limit is passed on. */
  datatype Settled = Fulfilled | RejectedRateLimit

  function SettledAs(o: Outcome): Settled {
    if o.RateLimited? then RejectedRateLimit else Fulfilled
  }

  /** The body of one task from its granted slot to the release in `finally`. */
  method RunTask(db: Table, limiter: L.ConcurrencyLimiter, t: Task, o: Outcome) returns (db': Table, settled: Settled)
    modifies limiter
    ensures db' == Upserted(db, t, o) && settled == SettledAs(o)
    ensures db' == if o.Translated? && t.slot.entityType != "" && t.slot.entityId != "" && t.slot.field != ""
                   then db[t.slot := Translation(o.value, Some(t.hash))] else db
    ensures settled.RejectedRateLimit? <==> o.RateLimited?
    ensures limiter.State() == L.Released(old(limiter.State()))
  {
    db', settled := db, Fulfilled;
    match o {
      case Translated(value) =>
        if t.slot.entityType != "" && t.slot.entityId != "" && t.slot.field != "" {
          db' := db[t.slot := Translation(value, Some(t.hash))];
        }
      case RateLimited =>
        settled := RejectedRateLimit;
      case Failed =>
    }
    var _ := limiter.Release();
  }

  // ----- the world: table, limiter and tasks -----

  /**
   * Task `i` is `tasks[i]`; its slot is held from its grant until its outcome is known. `past` are
   * the tables at all earlier moments.
   */
  datatype World = World(db: Table, past: seq<Table>, run: L.Run, tasks: seq<Task>, outcomes: map<nat, Outcome>)

  function Start0(db: Table): World {
    World(db, [], L.Idle, [], map[])
  }

  /** A call starts its tasks when its filter has looked up locale `i` at the moment `looked[i]`. */
  datatype Event = Begin(c: Call, looked: seq<nat>) | Settle(i: nat, o: Outcome)

  /** The lookups were made in order, up to now. */
  predicate InOrder(looked: seq<nat>, now: nat) {
    forall i, j :: 0 <= i <= j < |looked| ==> looked[i] <= looked[j] <= now
  }

  function SeenAt(w: World, looked: seq<nat>): (seen: seq<Table>)
    ensures |seen| == |looked|
    ensures forall i :: 0 <= i < |seen| ==> seen[i] == if looked[i] < |w.past| then w.past[looked[i]] else w.db
  {
    seq(|looked|, i requires 0 <= i < |looked| => if looked[i] < |w.past| then w.past[looked[i]] else w.db)
  }

  /** A task settles once, and only while it holds a slot. */
  predicate Enabled(w: World, e: Event) {
    match e
    case Begin(c, looked) => |looked| == |c.targetLocales| && InOrder(looked, |w.past|)
    case Settle(i, o) => i < |w.tasks| && L.Enabled(w.run, L.Release(i))
  }

  /** Each locale's task asks for a slot as soon as it is created. */
  function AddTasks(cfg: Config, limit: int, w: World, c: Call, locales: seq<string>): (w': World)
    ensures w'.db == w.db && w'.past == w.past && w'.outcomes == w.outcomes
    ensures |w'.tasks| == |w.tasks| + |locales|
    ensures w'.tasks[..|w.tasks|] == w.tasks
    ensures forall k :: 0 <= k < |locales| ==> w'.tasks[|w.tasks| + k] == Task(CallSlot(c, locales[k]), HashOf(cfg, c))
    decreases |locales|
  {
    if locales == [] then w
    else
      var w1 := w.(run := L.Step(limit, w.run, L.Acquire(|w.tasks|)), tasks :=
          w.tasks + [Task(CallSlot(c, locales[0]), HashOf(cfg, c))]);
      AddTasks(cfg, limit, w1, c, locales[1..])
  }

  function Effect(cfg: Config, limit: int, w: World, e: Event): World
    requires Enabled(w, e)
  {
    match e
    case Begin(c, looked) => AddTasks(cfg, limit, w, c, Started(cfg, SeenAt(w, looked), c))
    case Settle(i, o) =>
      w.(db := Upserted(w.db, w.tasks[i], o), run := L.Step(limit, w.run, L.Release(i)), outcomes := w.outcomes[i := o])
  }

  /** An event that is not enabled cannot happen, and is skipped. */
  function Next(cfg: Config, limit: int, w: World, e: Event): World {
    (if Enabled(w, e) then Effect(cfg, limit, w, e) else w).(past := w.past + [w.db])
  }

  /** The world after the first `i` events. */
  function At(cfg: Config, limit: int, db: Table, events: seq<Event>, i: nat): World
    requires i <= |events|
  {
    if i == 0 then Start0(db) else Next(cfg, limit, At(cfg, limit, db, events, i - 1), events[i - 1])
  }

  // ----- the limiter is used correctly -----

  /** Exactly the tasks have asked for slots, and exactly the settled ones have given theirs back. */
  ghost predicate Consistent(limit: int, w: World) {
    && L.Invariant(limit, w.run)
    && (forall i: nat :: i in w.run.arrivals <==> i < |w.tasks|)
    && w.run.released == w.outcomes.Keys
    && (forall i :: i in w.outcomes ==> i < |w.tasks|)
  }

  lemma {:induction false} AddTasksConsistent(cfg: Config, limit: int, w: World, c: Call, locales: seq<string>)
    requires Consistent(limit, w)
    ensures Consistent(limit, AddTasks(cfg, limit, w, c, locales))
    decreases |locales|
  {
    if locales != [] {
      L.StepKeepsInvariant(limit, w.run, L.Acquire(|w.tasks|));
      var w1 := w.(run := L.Step(limit, w.run, L.Acquire(|w.tasks|)), tasks :=
          w.tasks + [Task(CallSlot(c, locales[0]), HashOf(cfg, c))]);
      AddTasksConsistent(cfg, limit, w1, c, locales[1..]);
    }
  }

  lemma {:induction false} RunsAreConsistent(cfg: Config, limit: int, db: Table, events: seq<Event>, i: nat)
    requires i <= |events|
    ensures Consistent(limit, At(cfg, limit, db, events, i))
    decreases i
  {
    if i > 0 {
      RunsAreConsistent(cfg, limit, db, events, i - 1);
      NextIsConsistent(cfg, limit, At(cfg, limit, db, events, i - 1), events[i - 1]);
    }
  }

  lemma NextIsConsistent(cfg: Config, limit: int, w: World, e: Event)
    requires Consistent(limit, w)
    ensures Consistent(limit, Next(cfg, limit, w, e))
  {
    if Enabled(w, e) {
      match e {
        case Begin(c, looked) => AddTasksConsistent(cfg, limit, w, c, Started(cfg, SeenAt(w, looked), c));
        case Settle(k, o) => L.StepKeepsInvariant(limit, w.run, L.Release(k));
      }
    }
  }

  /** Once every task of every call has settled, no slot is taken and nobody waits. */
  lemma SettledRunFreesLimiter(cfg: Config, limit: int, db: Table, events: seq<Event>)
    requires forall i: nat :: i < |At(cfg, limit, db, events, |events|).tasks| ==>
      i in At(cfg, limit, db, events, |events|).outcomes
    ensures At(cfg, limit, db, events, |events|).run.slots == L.Slots(0, [])
  {
    RunsAreConsistent(cfg, limit, db, events, |events|);
    L.AllReleasedIsIdle(limit, At(cfg, limit, db, events, |events|).run);
  }

  // ----- single events -----

  lemma BeginStep(cfg: Config, limit: int, w: World, c: Call, looked: seq<nat>)
    requires Enabled(w, Begin(c, looked))
    ensures var started, w' := Started(cfg, SeenAt(w, looked), c), Next(cfg, limit, w, Begin(c, looked));
            && w'.tasks == AddTasks(cfg, limit, w, c, started).tasks && |w'.tasks| == |w.tasks| + |started|
            && forall k :: 0 <= k < |started| ==>
                 w'.tasks[|w.tasks| + k] == Task(CallSlot(c, started[k]), HashOf(cfg, c))
  {
  }

  lemma TasksOnlyAdded(cfg: Config, limit: int, w: World, e: Event)
    ensures w.tasks <= Next(cfg, limit, w, e).tasks
  {
    assert w.tasks == Next(cfg, limit, w, e).tasks[..|w.tasks|];
  }

  /** An outcome is new only when its task settles. */
  lemma NewOutcome(cfg: Config, limit: int, w: World, e: Event, k: nat)
    requires k !in w.outcomes && k in Next(cfg, limit, w, e).outcomes
    ensures e.Settle? && e.i == k && Enabled(w, e)
    ensures var w' := Next(cfg, limit, w, e);
            w'.tasks == w.tasks && w'.db == Upserted(w.db, w.tasks[k], e.o) && w'.outcomes[k] == e.o
  {
  }

  lemma OutcomeKept(cfg: Config, limit: int, w: World, e: Event, k: nat)
    requires Consistent(limit, w) && k in w.outcomes
    ensures k in Next(cfg, limit, w, e).outcomes && Next(cfg, limit, w, e).outcomes[k] == w.outcomes[k]
  {
  }

  // ----- convergence -----

  /** The slot belongs to the field the call translates. */
  predicate SameField(c: Call, s: Slot) {
    s.entityType == c.entityType && s.entityId == c.entityId && s.field == c.field
  }

  /** The source text of the call's field does not change: all its calls carry one hash. */
  ghost predicate Unchanged(cfg: Config, events: seq<Event>, c: Call) {
    forall i :: 0 <= i < |events| && events[i].Begin? && SameField(c, CallSlot(events[i].c, "")) ==>
      HashOf(cfg, events[i].c) == HashOf(cfg, c)
  }

  /** Tasks are only ever added. */
  lemma {:induction false} TasksKept(cfg: Config, limit: int, db: Table, events: seq<Event>, i: nat, j: nat)
    requires i <= j <= |events|
    ensures At(cfg, limit, db, events, i).tasks <= At(cfg, limit, db, events, j).tasks
    decreases j
  {
    if i < j {
      TasksKept(cfg, limit, db, events, i, j - 1);
      TasksOnlyAdded(cfg, limit, At(cfg, limit, db, events, j - 1), events[j - 1]);
    }
  }

  lemma OnlyBeginAddsTasks(cfg: Config, limit: int, w: World, e: Event)
    requires |Next(cfg, limit, w, e).tasks| > |w.tasks|
    ensures e.Begin? && Enabled(w, e)
  {
  }

  /** A new task belongs to the call that begins, and carries its hash. */
  lemma NewTask(cfg: Config, limit: int, w: World, e: Event, k: nat)
    requires |w.tasks| <= k < |Next(cfg, limit, w, e).tasks|
    ensures e.Begin?
    ensures var t := Next(cfg, limit, w, e).tasks[k]; t.hash == HashOf(cfg, e.c) && SameField(e.c, t.slot)
  {
    OnlyBeginAddsTasks(cfg, limit, w, e);
    NewTaskOf(cfg, limit, w, e.c, e.looked, k);
  }

  lemma NewTaskOf(cfg: Config, limit: int, w: World, c: Call, looked: seq<nat>, k: nat)
    requires Enabled(w, Begin(c, looked)) && |w.tasks| <= k < |Next(cfg, limit, w, Begin(c, looked)).tasks|
    ensures var t := Next(cfg, limit, w, Begin(c, looked)).tasks[k]; t.hash == HashOf(cfg, c) && SameField(c, t.slot)
  {
    BeginStep(cfg, limit, w, c, looked);
    var m, started := k - |w.tasks|, Started(cfg, SeenAt(w, looked), c);
    assert Next(cfg, limit, w, Begin(c, looked)).tasks[|w.tasks| + m] == Task(CallSlot(c, started[m]), HashOf(cfg, c));
  }

  lemma {:induction false} TaskCarriesTheHash(cfg: Config, limit: int, db: Table, events: seq<Event>, c: Call,
      i: nat, k: nat)
    requires Unchanged(cfg, events, c) && i <= |events| && k < |At(cfg, limit, db, events, i).tasks|
    requires SameField(c, At(cfg, limit, db, events, i).tasks[k].slot)
    ensures At(cfg, limit, db, events, i).tasks[k].hash == HashOf(cfg, c)
    decreases i
  {
    var w, e := At(cfg, limit, db, events, i - 1), events[i - 1];
    if k < |w.tasks| {
      TasksOnlyAdded(cfg, limit, w, e);
      TaskCarriesTheHash(cfg, limit, db, events, c, i - 1, k);
    } else {
      NewTask(cfg, limit, w, e, k);
      assert SameField(c, CallSlot(e.c, ""));
    }
  }

  /** Only a task that settles with success for a slot changes its row. */
  lemma RowStep(cfg: Config, limit: int, w: World, e: Event, s: Slot)
    requires s in w.db
    ensures var w' := Next(cfg, limit, w, e);
            s in w'.db && (w'.db[s] == w.db[s]
              || (e.Settle? && Enabled(w, e) && Succeeds(w.tasks[e.i], e.o) && w.tasks[e.i].slot == s
                  && w'.db[s] == Translation(e.o.value, Some(w.tasks[e.i].hash))))
  {
  }

  /** A row made from the current text stays one. */
  lemma {:induction false} RowStaysCurrent(cfg: Config, limit: int, db: Table, events: seq<Event>, c: Call, s: Slot,
      i: nat, j: nat)
    requires Unchanged(cfg, events, c) && SameField(c, s) && i <= j <= |events|
    requires HasHash(At(cfg, limit, db, events, i).db, s, HashOf(cfg, c))
    ensures HasHash(At(cfg, limit, db, events, j).db, s, HashOf(cfg, c))
    decreases j
  {
    if i < j {
      var w, e := At(cfg, limit, db, events, j - 1), events[j - 1];
      assert At(cfg, limit, db, events, j) == Next(cfg, limit, w, e);
      RowStaysCurrent(cfg, limit, db, events, c, s, i, j - 1);
      RowStep(cfg, limit, w, e, s);
      if e.Settle? && Enabled(w, e) && w.tasks[e.i].slot == s {
        TaskCarriesTheHash(cfg, limit, db, events, c, j - 1, e.i);
      }
    }
  }

  predicate Succeeded(w: World, k: nat) {
    k in w.outcomes && k < |w.tasks| && Succeeds(w.tasks[k], w.outcomes[k])
  }

  /** A task that has succeeded had done so before, or its row was just written. */
  lemma SucceededBefore(cfg: Config, limit: int, w: World, e: Event, k: nat)
    requires Consistent(limit, w) && Succeeded(Next(cfg, limit, w, e), k)
    ensures k < |w.tasks| && w.tasks[k] == Next(cfg, limit, w, e).tasks[k]
    ensures Succeeded(w, k) || HasHash(Next(cfg, limit, w, e).db, w.tasks[k].slot, w.tasks[k].hash)
  {
    TasksOnlyAdded(cfg, limit, w, e);
    if k in w.outcomes {
      OutcomeKept(cfg, limit, w, e, k);
    } else {
      NewOutcome(cfg, limit, w, e, k);
    }
  }

  /** A successful task leaves a row made from the current text. */
  lemma {:induction false} SuccessLeavesRow(cfg: Config, limit: int, db: Table, events: seq<Event>, c: Call, k: nat,
      j: nat)
    requires Unchanged(cfg, events, c) && j <= |events|
    requires Succeeded(At(cfg, limit, db, events, j), k) && SameField(c, At(cfg, limit, db, events, j).tasks[k].slot)
    ensures HasHash(At(cfg, limit, db, events, j).db, At(cfg, limit, db, events, j).tasks[k].slot, HashOf(cfg, c))
    decreases j
  {
    var w := At(cfg, limit, db, events, j - 1);
    assert At(cfg, limit, db, events, j) == Next(cfg, limit, w, events[j - 1]);
    RunsAreConsistent(cfg, limit, db, events, j - 1);
    SucceededBefore(cfg, limit, w, events[j - 1], k);
    if Succeeded(w, k) {
      SuccessLeavesRow(cfg, limit, db, events, c, k, j - 1);
      RowStaysCurrent(cfg, limit, db, events, c, w.tasks[k].slot, j - 1, j);
    } else {
      TaskCarriesTheHash(cfg, limit, db, events, c, j - 1, k);
    }
  }

  lemma {:induction false} PastLength(cfg: Config, limit: int, db: Table, events: seq<Event>, i: nat)
    requires i <= |events|
    ensures |At(cfg, limit, db, events, i).past| == i
    decreases i
  {
    if i > 0 {
      PastLength(cfg, limit, db, events, i - 1);
      NextPast(cfg, limit, At(cfg, limit, db, events, i - 1), events[i - 1]);
    }
  }

  lemma {:induction false} PastTables(cfg: Config, limit: int, db: Table, events: seq<Event>, m: nat, i: nat)
    requires m < i <= |events|
    ensures |At(cfg, limit, db, events, i).past| == i
    ensures At(cfg, limit, db, events, i).past[m] == At(cfg, limit, db, events, m).db
    decreases i
  {
    PastLength(cfg, limit, db, events, i);
    PastLength(cfg, limit, db, events, i - 1);
    NextPast(cfg, limit, At(cfg, limit, db, events, i - 1), events[i - 1]);
    if m < i - 1 {
      PastTables(cfg, limit, db, events, m, i - 1);
    }
  }

  lemma NextPast(cfg: Config, limit: int, w: World, e: Event)
    ensures Next(cfg, limit, w, e).past == w.past + [w.db]
  {
  }

  /** The filter's lookup of target locale `n` saw the table of the moment `looked[n]`. */
  lemma LookedUp(cfg: Config, limit: int, db: Table, events: seq<Event>, k: nat, n: nat)
    requires k < |events| && events[k].Begin? && n < |events[k].looked|
    requires InOrder(events[k].looked, |At(cfg, limit, db, events, k).past|)
    ensures events[k].looked[n] <= k
    ensures SeenAt(At(cfg, limit, db, events, k), events[k].looked)[n]
      == At(cfg, limit, db, events, events[k].looked[n]).db
  {
    PastLength(cfg, limit, db, events, k);
    if events[k].looked[n] < k {
      PastTables(cfg, limit, db, events, events[k].looked[n], k);
    }
  }

  /** Event `k` starts the tasks of the call. */
  ghost predicate Begins(cfg: Config, limit: int, db: Table, events: seq<Event>, k: nat, c: Call) {
    k < |events| && events[k].Begin? && events[k].c == c && Enabled(At(cfg, limit, db, events, k), events[k])
  }

  /** A call creates a task for every locale that was found to need the provider. */
  lemma TaskForMissingLocale(cfg: Config, limit: int, w: World, c: Call, looked: seq<nat>, n: nat) returns (id: nat)
    requires !Blank(c.text) && Enabled(w, Begin(c, looked)) && n < |looked|
    requires Needs(cfg, SeenAt(w, looked)[n], c, c.targetLocales[n])
    ensures var w' := Next(cfg, limit, w, Begin(c, looked));
            |w.tasks| <= id < |w'.tasks| && w'.tasks[id] == Task(CallSlot(c, c.targetLocales[n]), HashOf(cfg, c))
  {
    var locales := Started(cfg, SeenAt(w, looked), c);
    assert c.targetLocales[n] in locales;
    var m :| 0 <= m < |locales| && locales[m] == c.targetLocales[n];
    id := |w.tasks| + m;
    BeginStep(cfg, limit, w, c, looked);
  }

  /** The same, for the call that event `k` begins. */
  lemma OwnTask(cfg: Config, limit: int, db: Table, events: seq<Event>, c: Call, k: nat, n: nat) returns (id: nat)
    requires Begins(cfg, limit, db, events, k, c) && !Blank(c.text) && n < |c.targetLocales|
    requires Needs(cfg, SeenAt(At(cfg, limit, db, events, k), events[k].looked)[n], c, c.targetLocales[n])
    ensures Count(cfg, limit, db, events, k) <= id < Count(cfg, limit, db, events, k + 1)
    ensures At(cfg, limit, db, events, k + 1).tasks[id].slot == CallSlot(c, c.targetLocales[n])
  {
    var w := At(cfg, limit, db, events, k);
    id := TaskForMissingLocale(cfg, limit, w, c, events[k].looked, n);
    assert At(cfg, limit, db, events, k + 1) == Next(cfg, limit, w, events[k]);
  }

  predicate Fails(w: World, id: nat) {
    id < |w.tasks| && id in w.outcomes && !Succeeds(w.tasks[id], w.outcomes[id])
  }

  /** A failure is an outcome other than a translation of a named slot; it leaves the table as it was. */
  lemma FailsIff(w: World, id: nat)
    ensures Fails(w, id) <==>
            && id in w.outcomes && id < |w.tasks|
            && (w.outcomes[id].Translated? ==> "" in [w.tasks[id].slot.entityType, w.tasks[id].slot.entityId,
                w.tasks[id].slot.field])
    ensures Fails(w, id) ==> Upserted(w.db, w.tasks[id], w.outcomes[id]) == w.db
  {
  }

  /** How many tasks exist after the first `i` events; event `k` created the tasks from Count(k) up to Count(k + 1). */
  function Count(cfg: Config, limit: int, db: Table, events: seq<Event>, i: nat): nat
    requires i <= |events|
  {
    |At(cfg, limit, db, events, i).tasks|
  }

  /** The slot has a row made from the text, or one of the tasks lo..hi for it is pending or has failed. */
  ghost predicate AccountedFor(w: World, s: Slot, hash: string, lo: nat, hi: nat) {
    || HasHash(w.db, s, hash)
    || exists id: nat :: lo <= id < hi && id < |w.tasks| && w.tasks[id].slot == s && (id !in w.outcomes || Fails(w, id))
  }

  lemma AccountedWider(w: World, s: Slot, hash: string, id: nat, lo: nat, hi: nat)
    requires AccountedFor(w, s, hash, id, id + 1) && lo <= id < hi
    ensures AccountedFor(w, s, hash, lo, hi)
  {
  }

  /**
   * Partial success. After a call with non-blank text, at any later moment of any run in which the
   * source text does not change: every target locale other than the source's has a row made from
   * that text, or the call's own task for the locale is pending or has failed.
   */
  lemma EveryLocaleAccountedFor(cfg: Config, limit: int, db: Table, events: seq<Event>, c: Call, k: nat, j: nat,
      l: string)
    requires Unchanged(cfg, events, c) && k < j <= |events|
    requires Begins(cfg, limit, db, events, k, c) && !Blank(c.text) && l in c.targetLocales && l != c.sourceLocale
    ensures AccountedFor(At(cfg, limit, db, events, j), CallSlot(c, l), HashOf(cfg, c),
                         Count(cfg, limit, db, events, k), Count(cfg, limit, db, events, k + 1))
  {
    var s := CallSlot(c, l);
    var n :| 0 <= n < |c.targetLocales| && c.targetLocales[n] == l;
    var w, looked := At(cfg, limit, db, events, k), events[k].looked;
    LookedUp(cfg, limit, db, events, k, n);
    if Needs(cfg, SeenAt(w, looked)[n], c, l) {
      var id := OwnTask(cfg, limit, db, events, c, k, n);
      TaskAccountsForSlot(cfg, limit, db, events, c, s, k + 1, j, id);
      AccountedWider(At(cfg, limit, db, events, j), s, HashOf(cfg, c), id, Count(cfg, limit, db, events, k),
          Count(cfg, limit, db, events, k + 1));
    } else {
      RowStaysCurrent(cfg, limit, db, events, c, s, looked[n], j);
    }
  }

  lemma TaskAccountsForSlot(cfg: Config, limit: int, db: Table, events: seq<Event>, c: Call, s: Slot, i: nat, j: nat,
      id: nat)
    requires Unchanged(cfg, events, c) && SameField(c, s) && i <= j <= |events|
    requires id < Count(cfg, limit, db, events, i) && At(cfg, limit, db, events, i).tasks[id].slot == s
    ensures AccountedFor(At(cfg, limit, db, events, j), s, HashOf(cfg, c), id, id + 1)
  {
    TasksKept(cfg, limit, db, events, i, j);
    var w := At(cfg, limit, db, events, j);
    assert w.tasks[id].slot == s;
    if id in w.outcomes && Succeeds(w.tasks[id], w.outcomes[id]) {
      SuccessLeavesRow(cfg, limit, db, events, c, id, j);
    }
  }

  /** The target locales that a call made now would contact the provider for. */
  function Outstanding(cfg: Config, db: Table, c: Call): set<string> {
    set l | l in c.targetLocales && Needs(cfg, db, c, l)
  }

  lemma OutstandingNeverGrows(cfg: Config, limit: int, db: Table, events: seq<Event>, c: Call, i: nat, j: nat)
    requires Unchanged(cfg, events, c) && i <= j <= |events|
    ensures Outstanding(cfg, At(cfg, limit, db, events, j).db, c)
            <= Outstanding(cfg, At(cfg, limit, db, events, i).db, c)
  {
    forall l | l in c.targetLocales && Needs(cfg, At(cfg, limit, db, events, j).db, c, l)
      ensures Needs(cfg, At(cfg, limit, db, events, i).db, c, l)
    {
      if HasHash(At(cfg, limit, db, events, i).db, CallSlot(c, l), HashOf(cfg, c)) {
        RowStaysCurrent(cfg, limit, db, events, c, CallSlot(c, l), i, j);
      }
    }
  }

  /** By moment `j`, every task that event `k` created has settled. */
  ghost predicate SettledBy(cfg: Config, limit: int, db: Table, events: seq<Event>, k: nat, j: nat)
    requires k < j <= |events|
  {
    forall id :: Count(cfg, limit, db, events, k) <= id < Count(cfg, limit, db, events, k + 1) ==>
      id in At(cfg, limit, db, events, j).outcomes
  }

  /** One of these tasks, for the slot, has failed. */
  ghost predicate OwnTaskFailed(cfg: Config, limit: int, db: Table, events: seq<Event>, k: nat, j: nat, s: Slot)
    requires k < j <= |events|
  {
    var w := At(cfg, limit, db, events, j);
    exists id: nat :: Count(cfg, limit, db, events, k) <= id < Count(cfg, limit, db, events, k + 1) && Fails(w, id)
        && w.tasks[id].slot == s
  }

  /** Once a call has settled, a locale still needs the provider only if the call's own task for it failed. */
  lemma OnlyFailuresAreOutstanding(cfg: Config, limit: int, db: Table, events: seq<Event>, c: Call, k: nat, j: nat,
      l: string)
    requires Unchanged(cfg, events, c) && k < j <= |events| && Begins(cfg, limit, db, events, k, c) && !Blank(c.text)
    requires SettledBy(cfg, limit, db, events, k, j)
    requires l in Outstanding(cfg, At(cfg, limit, db, events, j).db, c)
    ensures OwnTaskFailed(cfg, limit, db, events, k, j, CallSlot(c, l))
  {
    EveryLocaleAccountedFor(cfg, limit, db, events, c, k, j, l);
  }

  /**
   * Convergence. Once every task of a call with non-blank text has settled, a repeated call whose
   * lookups come later contacts the provider only for locales whose task in the first call failed;
   * if none failed it starts no task.
   */
  lemma RepeatContactsOnlyFailures(cfg: Config, limit: int, db: Table, events: seq<Event>, c: Call, k: nat, j: nat,
      k': nat)
    requires Unchanged(cfg, events, c) && k < j <= k' && !Blank(c.text)
    requires Begins(cfg, limit, db, events, k, c) && Begins(cfg, limit, db, events, k', c)
    requires SettledBy(cfg, limit, db, events, k, j) && forall n :: 0 <= n < |events[k'].looked| ==>
      j <= events[k'].looked[n]
    ensures var started := Started(cfg, SeenAt(At(cfg, limit, db, events, k'), events[k'].looked), c);
            && (forall l :: l in started ==> OwnTaskFailed(cfg, limit, db, events, k, j, CallSlot(c, l)))
            && ((forall l :: l in c.targetLocales ==> !OwnTaskFailed(cfg, limit, db, events, k, j, CallSlot(c, l))) ==>
                started == [])
  {
    var looked := events[k'].looked;
    var started := Started(cfg, SeenAt(At(cfg, limit, db, events, k'), looked), c);
    forall l | l in started
      ensures l in c.targetLocales && OwnTaskFailed(cfg, limit, db, events, k, j, CallSlot(c, l))
    {
      var n :| 0 <= n < |c.targetLocales| && c.targetLocales[n] == l
               && Needs(cfg, SeenAt(At(cfg, limit, db, events, k'), looked)[n], c, l);
      LookedUp(cfg, limit, db, events, k', n);
      OutstandingNeverGrows(cfg, limit, db, events, c, j, looked[n]);
      OnlyFailuresAreOutstanding(cfg, limit, db, events, c, k, j, l);
    }
    if started != [] {
      assert started[0] in started;
    }
  }

  /**
   * So once a call has settled and none of its tasks failed, reads of its target locales emit
   * nothing and return the translation, provided the call's hash is that of the text.
   */
  lemma SettledCallSilencesReads(cfg: Config, limit: int, db: Table, events: seq<Event>, c: Call, k: nat, j: nat,
      r: Read)
    requires ValidConfig(cfg) && HashOf(cfg, c) == cfg.hash(c.text)
    requires Unchanged(cfg, events, c) && k < j <= |events| && Begins(cfg, limit, db, events, k, c) && !Blank(c.text)
    requires SettledBy(cfg, limit, db, events, k, j)
    requires forall l :: l in c.targetLocales ==> !OwnTaskFailed(cfg, limit, db, events, k, j, CallSlot(c, l))
    requires SlotOf(r) == CallSlot(c, r.locale) && r.locale in c.targetLocales && r.sourceText == Some(c.text)
    requires EffectiveSourceLocale(cfg, r) == c.sourceLocale
    ensures var now := At(cfg, limit, db, events, j).db;
            && JobsOf(cfg, Lookup(now, SlotOf(r)), r) == []
            && (r.locale != c.sourceLocale ==>
                  SlotOf(r) in now && ReadText(cfg, Lookup(now, SlotOf(r)), r) == now[SlotOf(r)].value
                  && now[SlotOf(r)].sourceHash == Some(HashOf(cfg, c)))
  {
    var now := At(cfg, limit, db, events, j).db;
    if r.locale != c.sourceLocale {
      if r.locale in Outstanding(cfg, now, c) {
        OnlyFailuresAreOutstanding(cfg, limit, db, events, c, k, j, r.locale);
      }
      assert HasHash(now, SlotOf(r), HashOf(cfg, c));
      CurrentRowIsQuietIff(cfg, now, c, r);
    }
  }

  /**
   * A read of a row made from the call's text asks for no work exactly when the call's hash is that
   * text's, or reads ask for none.
   */
  lemma CurrentRowIsQuietIff(cfg: Config, db: Table, c: Call, r: Read)
    requires ValidConfig(cfg)
    requires SlotOf(r) == CallSlot(c, r.locale) && r.sourceText == Some(c.text)
    requires HasHash(db, SlotOf(r), HashOf(cfg, c))
    ensures JobsOf(cfg, Lookup(db, SlotOf(r)), r) == [] <==>
            || HashOf(cfg, c) == cfg.hash(c.text)
            || !cfg.autoTranslateOnRead || !cfg.hasClient || r.locale == EffectiveSourceLocale(cfg, r)
    ensures HashOf(cfg, c) == cfg.hash(c.text) ==>
              ReadText(cfg, Lookup(db, SlotOf(r)), r) == db[SlotOf(r)].value
  {
    assert cfg.hash(c.text) != "";
    assert HashOf(cfg, c) != "";
  }

  lemma {:induction false} TasksHaveHashes(cfg: Config, limit: int, db: Table, events: seq<Event>, i: nat, k: nat)
    requires ValidConfig(cfg) && i <= |events| && k < |At(cfg, limit, db, events, i).tasks|
    ensures At(cfg, limit, db, events, i).tasks[k].hash != ""
    decreases i
  {
    var w := At(cfg, limit, db, events, i - 1);
    if k < |w.tasks| {
      TasksHaveHashes(cfg, limit, db, events, i - 1, k);
      TasksOnlyAdded(cfg, limit, w, events[i - 1]);
    } else {
      NewTask(cfg, limit, w, events[i - 1], k);
      assert cfg.hash(events[i - 1].c.text) != "";
    }
  }

  /** Event `k` writes this value, made from a text with this hash, to the slot. */
  ghost predicate WritesAt(cfg: Config, limit: int, db: Table, events: seq<Event>, k: nat, s: Slot, hash: string,
      value: string)
    requires k < |events|
  {
    var w := At(cfg, limit, db, events, k);
    && events[k].Settle? && Enabled(w, events[k]) && events[k].o == Translated(value)
    && w.tasks[events[k].i].slot == s && w.tasks[events[k].i].hash == hash
  }

  /** A row is the one it was, or was written since by a task for its slot. */
  lemma {:induction false} RowWasWritten(cfg: Config, limit: int, db: Table, events: seq<Event>, s: Slot, i: nat,
      j: nat)
    requires ValidConfig(cfg) && i <= j <= |events| && s in At(cfg, limit, db, events, i).db
    ensures s in At(cfg, limit, db, events, j).db
    ensures var row := At(cfg, limit, db, events, j).db[s];
            || row == At(cfg, limit, db, events, i).db[s]
            || (row.sourceHash.Some? && row.sourceHash.value != ""
                && exists k: nat :: i <= k < j && WritesAt(cfg, limit, db, events, k, s, row.sourceHash.value,
                    row.value))
    decreases j
  {
    if i < j {
      RowWasWritten(cfg, limit, db, events, s, i, j - 1);
      var w, e := At(cfg, limit, db, events, j - 1), events[j - 1];
      RowStep(cfg, limit, w, e, s);
      if Enabled(w, e) && e.Settle? && Succeeds(w.tasks[e.i], e.o) && w.tasks[e.i].slot == s {
        TasksHaveHashes(cfg, limit, db, events, j - 1, e.i);
        assert WritesAt(cfg, limit, db, events, j - 1, s, w.tasks[e.i].hash, e.o.value);
      } else {
        assert At(cfg, limit, db, events, j).db[s] == w.db[s];
      }
    }
  }

  /**
   * After the source text has changed, reads return the new text, whatever calls and tasks there
   * are, until a task has written a translation made from it; then they return that translation.
   */
  lemma NewTextUntilTranslated(cfg: Config, limit: int, db: Table, events: seq<Event>, i: nat, j: nat, r: Read)
    requires ValidConfig(cfg) && i <= j <= |events| && r.sourceText.Some?
    requires var before := At(cfg, limit, db, events, i).db;
             && SlotOf(r) in before && before[SlotOf(r)].sourceHash.Some? && before[SlotOf(r)].sourceHash.value != ""
             && before[SlotOf(r)].sourceHash.value != cfg.hash(r.sourceText.value)
    ensures var now := At(cfg, limit, db, events, j).db;
            var text := ReadText(cfg, Lookup(now, SlotOf(r)), r);
            if HasHash(now, SlotOf(r), cfg.hash(r.sourceText.value)) then
              exists k: nat :: i <= k < j && WritesAt(cfg, limit, db, events, k, SlotOf(r),
                  cfg.hash(r.sourceText.value), text)
            else text == r.sourceText.value
  {
    RowWasWritten(cfg, limit, db, events, SlotOf(r), i, j);
    HashedRowRead(cfg, At(cfg, limit, db, events, j).db, r);
  }

  lemma HashedRowRead(cfg: Config, db: Table, r: Read)
    requires SlotOf(r) in db && r.sourceText.Some? && db[SlotOf(r)].sourceHash.Some?
      && db[SlotOf(r)].sourceHash.value != ""
    ensures ReadText(cfg, Lookup(db, SlotOf(r)), r) ==
            if HasHash(db, SlotOf(r), cfg.hash(r.sourceText.value)) then db[SlotOf(r)].value else r.sourceText.value
  {
  }

  /** The call that serves a job. */
  function CallOf(job: Job): Call {
    Call(job.entityType, job.entityId, job.field, job.sourceLocale, job.targetLocales, job.text, Some(job.sourceHash))
  }

  /** A call with one target locale, on an idle limiter. */
  lemma OneTask(cfg: Config, limit: int, db: Table, c: Call, l: string)
    requires limit >= 1 && c.targetLocales == [l]
    ensures var w := Next(cfg, limit, Start0(db), Begin(c, [0]));
            w.db == db && w.outcomes == map[] &&
            if !Blank(c.text) && Needs(cfg, db, c, l) then
              w.tasks == [Task(CallSlot(c, l), HashOf(cfg, c))] && w.run == L.Step(limit, L.Idle, L.Acquire(0))
            else w.tasks == [] && w.run == L.Idle
  {
    var w0, seen := Start0(db), SeenAt(Start0(db), [0]);
    assert Missing(cfg, seen, c, 0) == [] && Missing(cfg, seen, c, 1) == if Needs(cfg, db, c, l) then [l] else [];
    if !Blank(c.text) && Needs(cfg, db, c, l) {
      assert [l][1..] == [];
      var w1 := w0.(run := L.Step(limit, w0.run, L.Acquire(0)), tasks := [Task(CallSlot(c, l), HashOf(cfg, c))]);
      assert AddTasks(cfg, limit, w1, c, []) == w1;
      assert AddTasks(cfg, limit, w0, c, [l]) == w1;
    }
  }

  /** Its task settles with a translation. */
  lemma OneTaskSettles(cfg: Config, limit: int, w: World, t: Task, value: string)
    requires limit >= 1 && w.tasks == [t] && w.run == L.Step(limit, L.Idle, L.Acquire(0))
    ensures Next(cfg, limit, w, Settle(0, Translated(value))).db == Upserted(w.db, t, Translated(value))
  {
    assert w.run.granted == [0];
  }

  /**
   * Read repair. After the job that a read emitted was served by a call whose task got a
   * translation, the same read returns it and asks for nothing, if and only if the text is not
   * blank and the row's key has no empty component; otherwise the read keeps asking.
   */
  lemma ReadRepairIff(cfg: Config, limit: int, db: Table, r: Read, value: string)
    requires ValidConfig(cfg) && limit >= 1 && WantsJob(cfg, Lookup(db, SlotOf(r)), r)
    ensures var begun := Next(cfg, limit, Start0(db), Begin(CallOf(JobFor(cfg, r)), [0]));
            var after := Lookup(Next(cfg, limit, begun, Settle(0, Translated(value))).db, SlotOf(r));
            if !Blank(SourceOrEmpty(r)) && Named(SlotOf(r)) then
              ReadText(cfg, after, r) == value && JobsOf(cfg, after, r) == []
            else JobsOf(cfg, after, r) == [JobFor(cfg, r)]
  {
    var c := CallOf(JobFor(cfg, r));
    assert cfg.hash(SourceOrEmpty(r)) != "";
    assert HashOf(cfg, c) == cfg.hash(SourceOrEmpty(r));
    OneTask(cfg, limit, db, c, r.locale);
    if !Blank(SourceOrEmpty(r)) {
      assert Needs(cfg, db, c, r.locale);
      var begun := Next(cfg, limit, Start0(db), Begin(c, [0]));
      OneTaskSettles(cfg, limit, begun, Task(SlotOf(r), HashOf(cfg, c)), value);
    }
  }
}
