/** The telemetry service as an object.

    Its methods are what the calls do when nothing runs beside them; Lifecycle.dfy and Protocol.dfy are
    about concurrent calls. */
module Service {
  import opened Topology
  import opened Tables
  import Pool = CollectionIds
  import opened StateCounters
  import opened ChangeLogs
  import opened TelemetryEntities
  import opened Selection
  import opened Requests
  import opened Updates
  import opened EntryGeneration
  import opened Commitments

  datatype Request = Request(intentId: string, collectionId: string, collector: Collector,
                             sources: set<Endpoint>, targets: set<Endpoint>)

  datatype IntentState = IntentState(entities: Entities, collectionId: string, collector: Collector)

  datatype Response = Ok | InProgress | Failed

  /** Requests and topologies for which no lookup panics. */
  ghost predicate Serves(G: Graph, programs: set<string>, req: Request) {
    && GoodTopology(G, req.collector.name) && req.collectionId != ""
    && SameKind(req.sources, req.targets)
    && (forall x :: x in req.sources + req.targets ==> x.device in G)
    && (forall x :: x in req.targets ==> x.device !in Compatible(G, programs))
  }

  /** `E` are the entities of the request. The pairs are bound so that the predicate unfolds only where it
      is used. */
  ghost predicate Answers(G: Graph, programs: set<string>, req: Request, E: Entities) {
    forall pairs {:trigger EntitiesOfRequest(G, Compatible(G, programs), pairs, E)} ::
      pairs == PairsOf(req.sources, req.targets) ==> EntitiesOfRequest(G, Compatible(G, programs), pairs, E)
  }

  ghost predicate EdgesOk(G: Graph, E: Entities) {
    forall e :: e in E.sources || e in E.sinks ==> EdgeOk(G, e)
  }

  // ---- The pool, seen by the other intents ----

  predicate Uses(slots: seq<Pool.Slot>, j: nat, y: string) {
    j < |slots| && y in slots[j].intents
  }

  lemma AllocKeepsOthers(s: Pool.PoolState, x: string, id: string, y: string)
    requires Pool.Consistent(s) && id != "" && x != y
    ensures var s' := Pool.AfterAlloc(s, x, id).0;
      && |s'.slots| == |s.slots|
      && forall j :: 0 <= j < |s.slots| ==>
           (y in s'.slots[j].intents <==> y in s.slots[j].intents)
           && (y in s.slots[j].intents ==> s'.slots[j].collectionId == s.slots[j].collectionId)
  {
  }

  lemma FreeKeepsOthers(s: Pool.PoolState, x: string, id: string, y: string)
    requires Pool.Consistent(s) && x != y
    ensures var s' := Pool.AfterFree(s, x, id);
      && |s'.slots| == |s.slots|
      && forall j :: 0 <= j < |s.slots| ==>
           (y in s'.slots[j].intents <==> y in s.slots[j].intents)
           && (y in s.slots[j].intents ==> s'.slots[j].collectionId == s.slots[j].collectionId)
  {
  }

  /** Allocating again what the intent owns changes nothing and finds the same slot. */
  lemma AllocAgain(s: Pool.PoolState, x: string, id: string)
    requires Pool.Consistent(s) && id != "" && Pool.FirstOwned(s.slots, x, id) < |s.slots|
    ensures Pool.AfterAlloc(s, x, id) == (s, Pool.Allocated(Pool.FirstOwned(s.slots, x, id)))
  {
    var k := Pool.FirstOwned(s.slots, x, id);
    assert Pool.FirstWithId(s.slots, id) == k;
    assert s.slots[k].intents + {x} == s.slots[k].intents;
    assert s.slots[k := s.slots[k]] == s.slots;
  }

  /** After an allocation the intent owns exactly the slot it got. */
  lemma AllocOwns(s: Pool.PoolState, x: string, id: string)
    requires Pool.Consistent(s) && id != ""
    requires forall j :: 0 <= j < |s.slots| ==> x in s.slots[j].intents ==> s.slots[j].collectionId == id
    ensures var (s', r) := Pool.AfterAlloc(s, x, id);
      && Pool.Consistent(s') && r != Pool.Panic
      && (r.Allocated? ==> r.index < |s'.slots| && Pool.FirstOwned(s'.slots, x, id) == r.index)
      && (r.Allocated? ==> forall j :: 0 <= j < |s'.slots| ==> (x in s'.slots[j].intents <==> j == r.index))
  {
    Pool.AllocKeepsConsistent(s, x, id);
  }

  // ---- Changelogs of a call ----

  lemma NothingCompiled(G: Graph, switchIds: map<Name, int>, c: Collector, k: int, E: Entities)
    requires Closed(G) && E.IsEmpty()
    ensures E == NO_ENTITIES && Compiles(G, switchIds, c, k, E, NO_ENTRIES)
  {
    NothingIsEmpty(G, switchIds, c, k);
  }

  lemma EmptyLogs()
    ensures ApplyLog(NO_ENTRIES) == [] && DeleteLog(NO_ENTRIES) == []
  {
  }

  method Compile(G: Graph, switchIds: map<Name, int>, E: Entities, c: Collector, k: int)
    returns (entries: ConfigEntries)
    requires Closed(G) && Generable(G, E, c.name)
    ensures Compiles(G, switchIds, c, k, E, entries)
  {
    var r := GetEntriesForTelemetryEntities(G, switchIds, E, c, k);
    entries := r.value;
  }

  method ApplyPart(G: Graph, switchIds: map<Name, int>, added: Entities, c: Collector, k: int)
    returns (changelog: ChangeLog?, ghost toAdd: ConfigEntries)
    requires Closed(G) && Generable(G, added, c.name)
    ensures Compiles(G, switchIds, c, k, added, toAdd)
    ensures changelog == null ==> ApplyLog(toAdd) == []
    ensures changelog != null ==>
      fresh(changelog) && changelog.doneCounter == -1 && changelog.actions == ApplyLog(toAdd)
  {
    if added.IsEmpty() {
      NothingCompiled(G, switchIds, c, k, added);
      EmptyLogs();
      return null, NO_ENTRIES;
    }
    var entries := Compile(G, switchIds, added, c, k);
    changelog := MakeApplyChangelog(entries);
    toAdd := entries;
  }

  method DeletePart(G: Graph, switchIds: map<Name, int>, removed: Entities, c: Collector, k: int)
    returns (changelog: ChangeLog?, ghost toRemove: ConfigEntries)
    requires Closed(G) && Generable(G, removed, c.name)
    ensures Compiles(G, switchIds, c, k, removed, toRemove)
    ensures changelog == null ==> DeleteLog(toRemove) == []
    ensures changelog != null ==>
      fresh(changelog) && changelog.doneCounter == -1 && changelog.actions == DeleteLog(toRemove)
  {
    if removed.IsEmpty() {
      NothingCompiled(G, switchIds, c, k, removed);
      EmptyLogs();
      return null, NO_ENTRIES;
    }
    var entries := Compile(G, switchIds, removed, c, k);
    changelog := MakeDeleteChangelog(entries);
    toRemove := entries;
  }

  /** The changelog of an update, or null if there is nothing to do. */
  method MakeChangelog(G: Graph, switchIds: map<Name, int>, added: Entities, removed: Entities, c: Collector, k: int)
    returns (changelog: ChangeLog?, ghost toAdd: ConfigEntries, ghost toRemove: ConfigEntries)
    requires Closed(G) && Generable(G, added, c.name) && Generable(G, removed, c.name)
    ensures Compiles(G, switchIds, c, k, added, toAdd) && Compiles(G, switchIds, c, k, removed, toRemove)
    ensures changelog == null ==> UpdateLog(toAdd, toRemove) == []
    ensures changelog != null ==>
      fresh(changelog) && changelog.doneCounter == -1 && changelog.actions == UpdateLog(toAdd, toRemove)
  {
    changelog, toAdd := ApplyPart(G, switchIds, added, c, k);
    var deleteChangelog;
    deleteChangelog, toRemove := DeletePart(G, switchIds, removed, c, k);
    if changelog == null {
      changelog := deleteChangelog;
    } else if deleteChangelog != null {
      changelog.ExtendFrom(deleteChangelog);
    }
  }

  /** Commit a changelog, if there is one. */
  method CommitChanges(changelog: ChangeLog?, counter: StateCounter, switches: Switches,
                       ghost toAdd: ConfigEntries, ghost toRemove: ConfigEntries)
    returns (ok: bool, ghost t: Commitment)
    requires Consistent(counter.Store(switches))
    requires changelog == null ==> UpdateLog(toAdd, toRemove) == []
    requires changelog != null ==> changelog.doneCounter == -1 && changelog.actions == UpdateLog(toAdd, toRemove)
    modifies if changelog == null then {} else {changelog}, counter, switches
    ensures Consistent(counter.Store(switches)) && t.toAdd == toAdd && t.toRemove == toRemove
    ensures Ran(old(counter.Store(switches)), t.Log(), t.deviceOk, t.undoOk, ok, counter.Store(switches), t.undone)
    ensures switches.asked >= old(switches.asked)
    ensures t.Refused() ==> Refusal(switches.answer, old(switches.asked), switches.asked)
  {
    if changelog == null {
      return true, Commitment(toAdd, toRemove, [], [], []);
    }
    var failedActions;
    ghost var deviceOk, undoOk;
    ok, failedActions, deviceOk, undoOk := CommitOrRollback(changelog, counter, switches);
    t := Commitment(toAdd, toRemove, deviceOk, undoOk, failedActions);
  }

  method ChangeTables(G: Graph, switchIds: map<Name, int>, added: Entities, removed: Entities, c: Collector, k: int,
                      counter: StateCounter, switches: Switches)
    returns (ok: bool, ghost t: Commitment)
    requires Closed(G) && Generable(G, added, c.name) && Generable(G, removed, c.name)
    requires Consistent(counter.Store(switches))
    modifies counter, switches
    ensures Consistent(counter.Store(switches))
    ensures Outcome(G, switchIds, c, k, added, removed, old(counter.Store(switches)), counter.Store(switches), t, ok)
    ensures switches.asked >= old(switches.asked)
    ensures t.Refused() ==> Refusal(switches.answer, old(switches.asked), switches.asked)
  {
    var changelog, toAdd, toRemove := MakeChangelog(G, switchIds, added, removed, c, k);
    ok, t := CommitChanges(changelog, counter, switches, toAdd, toRemove);
  }

  method RemoveTables(G: Graph, switchIds: map<Name, int>, E: Entities, c: Collector, k: int, counter: StateCounter,
                      switches: Switches)
    returns (ok: bool, ghost t: Commitment)
    requires GoodTopology(G, c.name) && EdgesOk(G, E)
    requires Consistent(counter.Store(switches))
    modifies counter, switches
    ensures Consistent(counter.Store(switches))
    ensures Outcome(G, switchIds, c, k, NO_ENTITIES, E, old(counter.Store(switches)), counter.Store(switches), t, ok)
    ensures switches.asked >= old(switches.asked)
    ensures t.Refused() ==> Refusal(switches.answer, old(switches.asked), switches.asked)
  {
    LinksAreGenerable(G, E, c.name);
    var entries := Compile(G, switchIds, E, c, k);
    var changelog := MakeDeleteChangelog(entries);
    NothingCompiled(G, switchIds, c, k, NO_ENTITIES);
    EmptyLogs();
    ok, t := CommitChanges(changelog, counter, switches, NO_ENTRIES, entries);
  }

  /** What locks, states and pool say about one intent. */
  ghost predicate IntentOk(locks: map<string, bool>, states: map<string, IntentState>, slots: seq<Pool.Slot>,
                           x: string)
  {
    && (x in states ==>
          x in locks && states[x].collectionId != "" && Pool.FirstOwned(slots, x, states[x].collectionId) < |slots|)
    && (x in locks && !locks[x] ==> x in states)
    && (!(x in locks && locks[x]) ==>
          forall j: nat :: Uses(slots, j, x) ==> x in states && slots[j].collectionId == states[x].collectionId)
  }

  ghost predicate OthersOk(locks: map<string, bool>, states: map<string, IntentState>, slots: seq<Pool.Slot>,
                           x: string)
  {
    forall y {:trigger IntentOk(locks, states, slots, y)} :: y != x ==> IntentOk(locks, states, slots, y)
  }

  /** What is said about other intents survives any change to this one. */
  lemma OthersSurvive(locks: map<string, bool>, states: map<string, IntentState>, slots: seq<Pool.Slot>,
                      locks': map<string, bool>, states': map<string, IntentState>, slots': seq<Pool.Slot>, x: string)
    requires OthersOk(locks, states, slots, x) && |slots'| == |slots|
    requires locks' - {x} == locks - {x} && states' - {x} == states - {x}
    requires forall y, j :: y != x && 0 <= j < |slots| ==> OtherSlotSame(slots, slots', y, j)
    ensures OthersOk(locks', states', slots', x)
  {
    forall y | y != x ensures IntentOk(locks', states', slots', y) {
      assert IntentOk(locks, states, slots, y);
      assert y in locks' <==> y in locks' - {x};
      assert y in locks <==> y in locks - {x};
      assert y in states' <==> y in states' - {x};
      assert y in states <==> y in states - {x};
      if y in states {
        assert OtherSlotSame(slots, slots', y, Pool.FirstOwned(slots, y, states[y].collectionId));
      }
      forall j: nat | Uses(slots', j, y) ensures Uses(slots, j, y) && slots'[j].collectionId == slots[j].collectionId {
        assert OtherSlotSame(slots, slots', y, j);
      }
    }
  }

  predicate OtherSlotSame(slots: seq<Pool.Slot>, slots': seq<Pool.Slot>, y: string, j: nat)
    requires j < |slots| == |slots'|
  {
    && (y in slots'[j].intents <==> y in slots[j].intents)
    && (y in slots[j].intents ==> slots'[j].collectionId == slots[j].collectionId)
  }

  lemma LockAndGiveUp(locks: map<string, bool>, x: string)
    ensures x in locks && !locks[x] ==> locks[x := true][x := false] == locks
    ensures x !in locks ==> locks[x := true] - {x} == locks
    ensures locks[x := true][x := false] == locks[x := false]
    ensures locks[x := true] - {x} == locks - {x} == locks[x := false] - {x}
  {
  }

  ghost predicate AllIntentsOk(locks: map<string, bool>, states: map<string, IntentState>, slots: seq<Pool.Slot>) {
    forall x {:trigger IntentOk(locks, states, slots, x)} :: IntentOk(locks, states, slots, x)
  }

  /** After a successful configuration everything said about the intents holds again. */
  lemma ConfiguredIsOk(locks: map<string, bool>, states: map<string, IntentState>, s: Pool.PoolState, x: string,
                       st: IntentState)
    requires AllIntentsOk(locks, states, s.slots) && Pool.Consistent(s) && st.collectionId != ""
    requires !(x in locks && locks[x]) && (x in states ==> states[x].collectionId == st.collectionId)
    requires var s' := Pool.AfterAlloc(s, x, st.collectionId).0;
      Pool.FirstOwned(s'.slots, x, st.collectionId) < |s'.slots|
    ensures AllIntentsOk(locks[x := false], states[x := st], Pool.AfterAlloc(s, x, st.collectionId).0.slots)
  {
    var s' := Pool.AfterAlloc(s, x, st.collectionId).0;
    assert IntentOk(locks, states, s.slots, x);
    forall y, j: nat | y != x && j < |s.slots|
      ensures |s'.slots| == |s.slots| && OtherSlotSame(s.slots, s'.slots, y, j)
    {
      AllocKeepsOthers(s, x, st.collectionId, y);
    }
    assert locks[x := false] - {x} == locks - {x} && states[x := st] - {x} == states - {x};
    OthersSurvive(locks, states, s.slots, locks[x := false], states[x := st], s'.slots, x);
    forall j: nat | Uses(s'.slots, j, x) ensures s'.slots[j].collectionId == st.collectionId {
      if j < |s.slots| && x in s.slots[j].intents {
        assert Uses(s.slots, j, x);
      }
    }
    assert IntentOk(locks[x := false], states[x := st], s'.slots, x);
  }

  /** So it does after a disable. */
  lemma DisabledIsOk(locks: map<string, bool>, states: map<string, IntentState>, s: Pool.PoolState, x: string)
    requires AllIntentsOk(locks, states, s.slots) && Pool.Consistent(s) && x in states && x in locks && !locks[x]
    ensures Pool.Consistent(Pool.AfterFree(s, x, states[x].collectionId))
    ensures AllIntentsOk(locks - {x}, states - {x}, Pool.AfterFree(s, x, states[x].collectionId).slots)
  {
    var id := states[x].collectionId;
    var s' := Pool.AfterFree(s, x, id);
    assert IntentOk(locks, states, s.slots, x);
    Pool.FreeKeepsConsistent(s, x, id);
    forall y, j: nat | y != x && j < |s.slots|
      ensures |s'.slots| == |s.slots| && OtherSlotSame(s.slots, s'.slots, y, j)
    {
      FreeKeepsOthers(s, x, id, y);
    }
    OthersSurvive(locks, states, s.slots, locks - {x}, states - {x}, s'.slots, x);
    forall j: nat ensures !Uses(s'.slots, j, x) {
      if Uses(s'.slots, j, x) {
        assert Uses(s.slots, j, x);
      }
    }
    assert IntentOk(locks - {x}, states - {x}, s'.slots, x);
  }

  /** Taking a free lock, or giving up a held one, changes nothing for the other intents. */
  lemma LockingIsOk(locks: map<string, bool>, states: map<string, IntentState>, slots: seq<Pool.Slot>, x: string)
    requires AllIntentsOk(locks, states, slots) && x in locks
    ensures AllIntentsOk(locks[x := true], states, slots)
  {
    assert locks[x := true] - {x} == locks - {x};
    OthersSurvive(locks, states, slots, locks[x := true], states, slots, x);
    assert IntentOk(locks, states, slots, x);
    assert IntentOk(locks[x := true], states, slots, x);
  }

  lemma GivingUpIsOk(locks: map<string, bool>, states: map<string, IntentState>, slots: seq<Pool.Slot>, x: string)
    requires AllIntentsOk(locks, states, slots) && IntentOk(locks[x := false], states, slots, x)
    ensures AllIntentsOk(locks[x := false], states, slots)
  {
    assert locks[x := false] - {x} == locks - {x};
    OthersSurvive(locks, states, slots, locks[x := false], states, slots, x);
  }

  ghost predicate StateOk(G: Graph, st: IntentState) {
    GoodTopology(G, st.collector.name) && EdgesOk(G, st.entities)
  }

  class TelemetryService {
    var intentLocks: map<string, bool>
    var intentState: map<string, IntentState>
    const pool: Pool.CollectionIdPool
    const counter: StateCounter
    const switches: Switches
    const programs: set<string>

    ghost predicate ResourcesOk()
      reads this, pool, pool.pool, counter, switches
    {
      pool.Valid() && Pool.Consistent(pool.State()) && Consistent(counter.Store(switches))
    }

    ghost predicate Valid(G: Graph)
      reads this, pool, pool.pool, counter, switches
    {
      && ResourcesOk()
      && AllIntentsOk(intentLocks, intentState, pool.State().slots)
      && (forall x {:trigger StateOk(G, intentState[x])} :: x in intentState ==> StateOk(G, intentState[x]))
    }

    predicate Held(intentId: string)
      reads this
    {
      intentId in intentLocks && intentLocks[intentId]
    }

    constructor (G: Graph, programs: set<string>, poolSize: nat, answer: nat -> bool)
      ensures Valid(G) && intentLocks == map[] && intentState == map[]
      ensures switches.asked == 0 && switches.answer == answer
      ensures forall ref :: Count(counter.Store(switches), ref) == 0
    {
      intentLocks, intentState := map[], map[];
      pool := new Pool.CollectionIdPool(poolSize);
      counter := new StateCounter();
      switches := new Switches(answer);
      this.programs := programs;
      new;
      forall x ensures IntentOk(intentLocks, intentState, pool.State().slots, x) {
      }
    }

    method LockIntent(intentId: string) returns (success: bool)
      modifies this`intentLocks
      ensures success <==> !old(Held(intentId))
      ensures intentLocks == if success then old(intentLocks)[intentId := true] else old(intentLocks)
    {
      if intentId in intentLocks {
        if intentLocks[intentId] {
          return false;
        }
      }
      intentLocks := intentLocks[intentId := true];
      return true;
    }

    method TryLockIntentIfExists(intentId: string) returns (found: bool, success: bool)
      modifies this`intentLocks
      ensures found <==> intentId in old(intentLocks)
      ensures success <==> !old(Held(intentId))
      ensures intentLocks == if found && success then old(intentLocks)[intentId := true] else old(intentLocks)
    {
      if intentId !in intentLocks {
        return false, true;
      }
      if intentLocks[intentId] {
        return true, false;
      }
      intentLocks := intentLocks[intentId := true];
      return true, true;
    }

    method UnlockIntent(intentId: string)
      requires Held(intentId)
      modifies this`intentLocks
      ensures intentLocks == old(intentLocks)[intentId := false]
    {
      intentLocks := intentLocks[intentId := false];
    }

    method DeleteIntentLock(intentId: string)
      requires Held(intentId)
      modifies this`intentLocks
      ensures intentLocks == old(intentLocks) - {intentId}
    {
      intentLocks := intentLocks - {intentId};
    }

    /** The slot that the request gets, if any. */
    ghost function Reserved(req: Request): Pool.AllocResult
      reads pool, pool.pool
      requires pool.Valid()
    {
      Pool.AfterAlloc(pool.State(), req.intentId, req.collectionId).1
    }

    /** The intent is stored with another collection id. */
    predicate Conflicts(req: Request)
      reads this
    {
      req.intentId in intentState && intentState[req.intentId].collectionId != req.collectionId
    }

    /** Reserve the collection id and bring the tables up to date; on failure the pool is as before. */
    method AllocAndCommit(G: Graph, switchIds: map<Name, int>, req: Request, known: bool, added: Entities,
                          removed: Entities)
      returns (ok: bool, ghost t: Commitment)
      requires pool.Valid() && Pool.Consistent(pool.State()) && req.collectionId != ""
      requires Consistent(counter.Store(switches))
      requires Closed(G) && Generable(G, added, req.collector.name) && Generable(G, removed, req.collector.name)
      requires known ==> Pool.FirstOwned(pool.State().slots, req.intentId, req.collectionId) < |pool.State().slots|
      requires !known ==> forall j: nat :: !Uses(pool.State().slots, j, req.intentId)
      modifies pool, pool.pool, counter, switches
      ensures pool.Valid() && Pool.Consistent(pool.State()) && Consistent(counter.Store(switches))
      ensures pool.State() ==
        if ok then Pool.AfterAlloc(old(pool.State()), req.intentId, req.collectionId).0 else old(pool.State())
      ensures old(Reserved(req)) == Pool.Exhausted || old(Reserved(req)).Allocated?
      ensures old(Reserved(req)).Allocated? ==>
        && Outcome(G, switchIds, req.collector, old(Reserved(req)).index, added, removed,
                   old(counter.Store(switches)), counter.Store(switches), t, ok)
      ensures !old(Reserved(req)).Allocated? ==>
        !ok && counter.Store(switches) == old(counter.Store(switches)) && t == NOTHING_SENT
      ensures ok ==>
        var k := Pool.FirstOwned(pool.State().slots, req.intentId, req.collectionId);
        k < |pool.State().slots| && k == old(Reserved(req)).index
      ensures switches.asked >= old(switches.asked)
      ensures t.Refused() ==> Refusal(switches.answer, old(switches.asked), switches.asked)
    {
      Allocation(pool.State(), req.intentId, req.collectionId, known);
      var alloc := pool.AllocOrGet(req.intentId, req.collectionId);
      if !alloc.Allocated? {
        return false, NOTHING_SENT;
      }
      ok, t := ChangeTables(G, switchIds, added, removed, req.collector, alloc.index, counter, switches);
      if !ok && !known {
        pool.Free(req.intentId, req.collectionId);
      }
    }

    /** ConfigureTelemetry, undisturbed. The entities, and what was sent to the switches, are returned for
        the specification only. */
    method ConfigureTelemetry(G: Graph, switchIds: map<Name, int>, req: Request)
      returns (r: Response, ghost E: Entities, ghost t: Commitment)
      requires Valid(G) && Serves(G, programs, req)
      modifies this`intentLocks, this`intentState, pool, pool.pool, counter, switches
      ensures Valid(G)
      ensures r == InProgress <==> old(Held(req.intentId))
      ensures r != InProgress ==> Answers(G, programs, req, E)
      // When it succeeds: nothing but these refuses a request, and a commit that completes is a success.
      ensures r == Ok <==>
        && !old(Held(req.intentId)) && !old(Conflicts(req)) && old(Reserved(req)) != Pool.Exhausted
        && Completes(old(counter.Store(switches)), t)
      // What it sends, and what becomes of the tables.
      ensures old(Held(req.intentId) || Conflicts(req)) || old(Reserved(req)) == Pool.Exhausted ==>
        counter.Store(switches) == old(counter.Store(switches)) && t == NOTHING_SENT
      ensures !old(Held(req.intentId) || Conflicts(req)) && old(Reserved(req)) != Pool.Exhausted ==>
        && old(Reserved(req)).Allocated?
        && Outcome(G, switchIds, req.collector, old(Reserved(req)).index,
                   Difference(E, old(EntitiesNow(req.intentId))), Difference(old(EntitiesNow(req.intentId)), E),
                   old(counter.Store(switches)), counter.Store(switches), t, r == Ok)
      ensures switches.asked >= old(switches.asked)
      // When every switch answers, only a count that would go negative makes the commit fail.
      ensures !Refusal(switches.answer, old(switches.asked), switches.asked) ==>
        (r == Ok <==>
           && !old(Held(req.intentId)) && !old(Conflicts(req)) && old(Reserved(req)).Allocated?
           && NoneNegative(G, old(Reserved(req)).index, Difference(E, old(EntitiesNow(req.intentId))),
                           Difference(old(EntitiesNow(req.intentId)), E), old(counter.Store(switches))))
      // What it stores.
      ensures r != Ok ==>
        intentState == old(intentState) && intentLocks == old(intentLocks) && pool.State() == old(pool.State())
      ensures r == Ok ==>
        && intentState == old(intentState)[req.intentId := IntentState(E, req.collectionId, req.collector)]
        && intentLocks == old(intentLocks)[req.intentId := false]
        && pool.State() == Pool.AfterAlloc(old(pool.State()), req.intentId, req.collectionId).0
        && Pool.FirstOwned(pool.State().slots, req.intentId, req.collectionId) == old(Reserved(req)).index
        && Switched(G, old(Reserved(req)).index, old(EntitiesNow(req.intentId)), E,
                    old(counter.Store(switches)), counter.Store(switches))
    {
      ghost var x, s := req.intentId, pool.State();
      assert IntentOk(intentLocks, intentState, s.slots, x);
      LockAndGiveUp(intentLocks, x);
      var locked := LockIntent(req.intentId);
      if !locked {
        return InProgress, NO_ENTITIES, NOTHING_SENT;
      }
      var ok, known, desired;
      ok, known, desired, t := Reconfigure(G, switchIds, req);
      E := desired;
      Conclude(req, ok, known, desired);
      if !ok {
        return Failed, E, t;
      }
      ConfiguredIsOk(old(intentLocks), old(intentState), s, x, intentState[x]);
      return Ok, E, t;
    }

    /** The end of the call: store the new state on success, and give up the lock, which disappears if a
        first configuration failed. */
    method Conclude(req: Request, ok: bool, known: bool, desired: Entities)
      requires Held(req.intentId)
      modifies this`intentLocks, this`intentState
      ensures intentState ==
        if ok then old(intentState)[req.intentId := IntentState(desired, req.collectionId, req.collector)]
        else old(intentState)
      ensures intentLocks ==
        if ok || known then old(intentLocks)[req.intentId := false] else old(intentLocks) - {req.intentId}
    {
      if ok {
        intentState := intentState[req.intentId := IntentState(desired, req.collectionId, req.collector)];
        UnlockIntent(req.intentId);
      } else if known {
        UnlockIntent(req.intentId);
      } else {
        DeleteIntentLock(req.intentId);
      }
    }

    /** What happens between taking the lock of the intent and giving it up. */
    method Reconfigure(G: Graph, switchIds: map<Name, int>, req: Request)
      returns (ok: bool, known: bool, desired: Entities, ghost t: Commitment)
      requires ResourcesOk() && Serves(G, programs, req)
      requires req.intentId in intentState ==> StateOk(G, intentState[req.intentId])
      requires req.intentId in intentState ==>
        Pool.FirstOwned(pool.State().slots, req.intentId, intentState[req.intentId].collectionId) < |pool.State().slots|
      requires req.intentId !in intentState ==> forall j: nat :: !Uses(pool.State().slots, j, req.intentId)
      modifies pool, pool.pool, counter, switches
      ensures ResourcesOk()
      ensures known <==> req.intentId in intentState
      ensures Answers(G, programs, req, desired) && EdgesOk(G, desired)
      ensures ok <==>
        && !Conflicts(req) && old(Reserved(req)) != Pool.Exhausted
        && Completes(old(counter.Store(switches)), t)
      ensures Conflicts(req) || old(Reserved(req)) == Pool.Exhausted ==>
        counter.Store(switches) == old(counter.Store(switches)) && t == NOTHING_SENT
      ensures !Conflicts(req) && old(Reserved(req)) != Pool.Exhausted ==>
        && old(Reserved(req)).Allocated?
        && Outcome(G, switchIds, req.collector, old(Reserved(req)).index,
                   Difference(desired, EntitiesNow(req.intentId)), Difference(EntitiesNow(req.intentId), desired),
                   old(counter.Store(switches)), counter.Store(switches), t, ok)
      ensures switches.asked >= old(switches.asked)
      ensures !Refusal(switches.answer, old(switches.asked), switches.asked) ==>
        (ok <==>
           && !Conflicts(req) && old(Reserved(req)).Allocated?
           && NoneNegative(G, old(Reserved(req)).index, Difference(desired, EntitiesNow(req.intentId)),
                           Difference(EntitiesNow(req.intentId), desired), old(counter.Store(switches))))
      ensures pool.State() ==
        if ok then Pool.AfterAlloc(old(pool.State()), req.intentId, req.collectionId).0 else old(pool.State())
      ensures ok ==>
        var k := Pool.FirstOwned(pool.State().slots, req.intentId, req.collectionId);
        && k < |pool.State().slots| && k == old(Reserved(req)).index
        && Switched(G, k, EntitiesNow(req.intentId), desired, old(counter.Store(switches)), counter.Store(switches))
    {
      ghost var before, alloc := counter.Store(switches), Reserved(req);
      var conflict, added, removed;
      known, conflict, desired, added, removed := Plan(G, req);
      if conflict {
        return false, known, desired, NOTHING_SENT;
      }
      ok, t := AllocAndCommit(G, switchIds, req, known, added, removed);
      if alloc.Allocated? {
        SuccessIsCompletion(before, t, ok, counter.Store(switches));
        if ok {
          SuccessSwitches(G, switchIds, req.collector, alloc.index, EntitiesNow(req.intentId), desired, before,
                          counter.Store(switches), t);
        }
        if !t.Refused() {
          WhenAnsweredSucceeds(G, switchIds, req.collector, alloc.index, added, removed, before,
                               counter.Store(switches), t, ok);
        }
      }
    }

    /** Between the answer of DisableTelemetry and the end of the removal: the lock is held, and apart from
        that the intent is as it was. */
    ghost predicate BeingDisabled(intentId: string)
      reads this, pool, pool.pool
    {
      && pool.Valid() && Held(intentId) && intentId in intentState
      && IntentOk(intentLocks[intentId := false], intentState, pool.State().slots, intentId)
    }

    /** DisableTelemetry locks the intent and answers at once. `started` says whether the removal runs in
        the background from now on; it alone gives up the lock. */
    method DisableTelemetry(G: Graph, intentId: string) returns (shouldRetryLater: bool, started: bool)
      requires Valid(G)
      modifies this`intentLocks
      ensures Valid(G)
      ensures shouldRetryLater <==> old(Held(intentId))
      ensures started <==> intentId in old(intentLocks) && !old(Held(intentId))
      ensures intentLocks == if started then old(intentLocks)[intentId := true] else old(intentLocks)
      ensures started ==> BeingDisabled(intentId)
    {
      ghost var locks := intentLocks;
      assert IntentOk(intentLocks, intentState, pool.State().slots, intentId);
      var found, locked := TryLockIntentIfExists(intentId);
      if !found {
        return false, false;
      }
      if !locked {
        return true, false;
      }
      LockAndGiveUp(locks, intentId);
      LockingIsOk(locks, intentState, pool.State().slots, intentId);
      return false, true;
    }

    /** The end of a successful removal. */
    method Forget(G: Graph, intentId: string)
      requires Valid(G) && BeingDisabled(intentId)
      modifies this`intentLocks, this`intentState, pool, pool.pool
      ensures Valid(G)
      ensures intentState == old(intentState) - {intentId} && intentLocks == old(intentLocks) - {intentId}
      ensures pool.State() == Pool.AfterFree(old(pool.State()), intentId, old(intentState)[intentId].collectionId)
    {
      ghost var x, s, locks, states := intentId, pool.State(), intentLocks[intentId := false], intentState;
      GivingUpIsOk(intentLocks, states, s.slots, x);
      LockAndGiveUp(intentLocks, x);
      DisabledIsOk(locks, states, s, x);
      var id := intentState[intentId].collectionId;
      intentState := intentState - {intentId};
      pool.Free(intentId, id);
      DeleteIntentLock(intentId);
    }

    /** The end of a failed removal. */
    method GiveUp(G: Graph, intentId: string)
      requires Valid(G) && BeingDisabled(intentId)
      modifies this`intentLocks
      ensures Valid(G) && intentLocks == old(intentLocks)[intentId := false]
    {
      GivingUpIsOk(intentLocks, intentState, pool.State().slots, intentId);
      UnlockIntent(intentId);
    }

    /** The slot of a stored intent. */
    ghost function SlotOfIntent(intentId: string): nat
      reads this, pool, pool.pool
      requires pool.Valid() && intentId in intentState
    {
      Pool.FirstOwned(pool.State().slots, intentId, intentState[intentId].collectionId)
    }

    /** The commit of a removal. */
    method RemoveEntries(G: Graph, switchIds: map<Name, int>, intentId: string)
      returns (removed: bool, ghost t: Commitment)
      requires Valid(G) && BeingDisabled(intentId)
      modifies counter, switches
      ensures Valid(G) && BeingDisabled(intentId)
      ensures GoodTopology(G, intentState[intentId].collector.name)
      ensures Outcome(G, switchIds, intentState[intentId].collector, SlotOfIntent(intentId), NO_ENTITIES,
                      intentState[intentId].entities, old(counter.Store(switches)), counter.Store(switches), t, removed)
      ensures switches.asked >= old(switches.asked)
      ensures t.Refused() ==> Refusal(switches.answer, old(switches.asked), switches.asked)
    {
      var current := intentState[intentId];
      assert StateOk(G, current);
      var collectionIdNum := pool.GetIfAllocated(intentId, current.collectionId);
      removed, t := RemoveTables(G, switchIds, current.entities, current.collector, collectionIdNum.value,
                                 counter, switches);
    }

    /** The removal in the background, undisturbed by calls for other intents. */
    method RemoveIntent(G: Graph, switchIds: map<Name, int>, intentId: string)
      returns (removed: bool, ghost t: Commitment)
      requires Valid(G) && BeingDisabled(intentId)
      modifies this`intentLocks, this`intentState, pool, pool.pool, counter, switches
      ensures Valid(G)
      // What it sends, when it succeeds, and what becomes of the tables.
      ensures Closed(G)
      ensures Outcome(G, switchIds, old(intentState)[intentId].collector, old(SlotOfIntent(intentId)), NO_ENTITIES,
                      old(intentState)[intentId].entities,
                      old(counter.Store(switches)), counter.Store(switches), t, removed)
      ensures removed <==> Completes(old(counter.Store(switches)), t)
      ensures removed ==>
        Removed(G, old(SlotOfIntent(intentId)), old(intentState)[intentId].entities,
                old(counter.Store(switches)), counter.Store(switches))
      ensures switches.asked >= old(switches.asked)
      ensures !Refusal(switches.answer, old(switches.asked), switches.asked) ==>
        (removed <==> NoneNegative(G, old(SlotOfIntent(intentId)), NO_ENTITIES, old(intentState)[intentId].entities,
                                   old(counter.Store(switches))))
      // What it stores.
      ensures !removed ==>
        && intentState == old(intentState) && intentLocks == old(intentLocks)[intentId := false]
        && pool.State() == old(pool.State())
      ensures removed ==>
        && intentState == old(intentState) - {intentId} && intentLocks == old(intentLocks) - {intentId}
        && pool.State() == Pool.AfterFree(old(pool.State()), intentId, old(intentState)[intentId].collectionId)
    {
      ghost var st, k, before := intentState[intentId], SlotOfIntent(intentId), counter.Store(switches);
      removed, t := RemoveEntries(G, switchIds, intentId);
      RemovalSucceeds(G, switchIds, st, k, before, counter.Store(switches), t, removed);
      if removed {
        Forget(G, intentId);
      } else {
        GiveUp(G, intentId);
      }
    }

    /** What the request changes, compared with the current state of the intent. */
    method Plan(G: Graph, req: Request)
      returns (known: bool, conflict: bool, desired: Entities, added: Entities, removed: Entities)
      requires Serves(G, programs, req)
      requires req.intentId in intentState ==> StateOk(G, intentState[req.intentId])
      ensures known <==> req.intentId in intentState
      ensures conflict <==> known && intentState[req.intentId].collectionId != req.collectionId
      ensures Answers(G, programs, req, desired)
      ensures EdgesOk(G, desired) && EdgesOk(G, EntitiesNow(req.intentId))
      ensures !conflict ==>
        && added == Difference(desired, EntitiesNow(req.intentId))
        && removed == Difference(EntitiesNow(req.intentId), desired)
      ensures Generable(G, added, req.collector.name) && Generable(G, removed, req.collector.name)
    {
      desired := FindEntities(G, programs, req);
      ChangesAreGenerable(G, EntitiesNow(req.intentId), desired, req.collector.name);
      known, conflict := req.intentId in intentState, false;
      added, removed := desired, NO_ENTITIES;
      if known {
        var current := intentState[req.intentId];
        if current.collectionId != req.collectionId {
          conflict := true;
        } else {
          added, removed := ComputeDifferences(current.entities, desired);
        }
      }
    }

    ghost function EntitiesNow(intentId: string): Entities
      reads this
    {
      if intentId in intentState then intentState[intentId].entities else NO_ENTITIES
    }
  }

  /** What AllocOrGet does for an intent that owns the id, and for one that is in no slot. */
  lemma Allocation(s: Pool.PoolState, x: string, id: string, known: bool)
    requires Pool.Consistent(s) && id != ""
    requires if known then Pool.FirstOwned(s.slots, x, id) < |s.slots| else forall j: nat :: !Uses(s.slots, j, x)
    ensures var (s', r) := Pool.AfterAlloc(s, x, id);
      && Pool.Consistent(s') && r != Pool.Panic && |s'.slots| == |s.slots|
      && (r.Allocated? ==> r.index < |s'.slots| && Pool.FirstOwned(s'.slots, x, id) == r.index)
      && (r == Pool.Exhausted ==> s' == s)
      && (known ==> s' == s)
      && (!known && r.Allocated? ==> Pool.AfterFree(s', x, id) == s)
  {
    Pool.AllocKeepsConsistent(s, x, id);
    if known {
      AllocAgain(s, x, id);
    } else {
      forall j | 0 <= j < |s.slots| ensures x !in s.slots[j].intents {
        assert !Uses(s.slots, j, x);
      }
      AllocOwns(s, x, id);
      Pool.FreeUndoesAlloc(s, x, id);
    }
  }

  lemma ChangesAreGenerable(G: Graph, E: Entities, F: Entities, collector: Name)
    requires GoodTopology(G, collector) && EdgesOk(G, E) && EdgesOk(G, F)
    ensures Generable(G, Difference(F, E), collector) && Generable(G, Difference(E, F), collector)
    ensures Generable(G, F, collector) && Generable(G, NO_ENTITIES, collector)
    ensures Difference(F, NO_ENTITIES) == F && Difference(NO_ENTITIES, F) == NO_ENTITIES
  {
    LinksAreGenerable(G, Difference(F, E), collector);
    LinksAreGenerable(G, Difference(E, F), collector);
    LinksAreGenerable(G, NO_ENTITIES, collector);
    LinksAreGenerable(G, F, collector);
    CreateAndDeleteAreClean(F);
  }

  lemma RemovalSucceeds(G: Graph, switchIds: map<Name, int>, st: IntentState, k: int, before: Store, after: Store,
                        t: Commitment, removed: bool)
    requires Closed(G) && Consistent(before)
    requires Outcome(G, switchIds, st.collector, k, NO_ENTITIES, st.entities, before, after, t, removed)
    ensures removed <==> Completes(before, t)
    ensures removed ==> Removed(G, k, st.entities, before, after)
    ensures !t.Refused() ==> (removed <==> NoneNegative(G, k, NO_ENTITIES, st.entities, before))
  {
    SuccessIsCompletion(before, t, removed, after);
    if removed {
      SuccessRemoves(G, switchIds, st.collector, k, st.entities, before, after, t);
    }
    if !t.Refused() {
      WhenAnsweredSucceeds(G, switchIds, st.collector, k, NO_ENTITIES, st.entities, before, after, t, removed);
    }
  }

  method FindEntities(G: Graph, programs: set<string>, req: Request) returns (E: Entities)
    requires Serves(G, programs, req)
    ensures Answers(G, programs, req, E)
    ensures EdgesOk(G, E)
  {
    forall p | p in PairsOf(req.sources, req.targets)
      ensures Placed(G, Compatible(G, programs), p) && p.1.device !in Compatible(G, programs)
    {
      assert Reachable(G, p.0.device, p.1.device);
      if p.0.device != p.1.device {
        PathIsTwoWay(G, p);
      }
    }
    E := FindTelemetryEntitiesForRequest(G, Compatible(G, programs), req.sources, req.targets);
    ProperRequestIsGenerable(G, programs, PairsOf(req.sources, req.targets), E, NO_ENTITIES, req.collector.name);
    LinksAreGenerable(G, E, req.collector.name);
  }

  // ---- There and back ----

  /** Disabling a stored intent whose lock is free, and the removal that follows, undisturbed. */
  method DisableAndWait(service: TelemetryService, G: Graph, switchIds: map<Name, int>, intentId: string)
    returns (removed: bool)
    requires service.Valid(G) && intentId in service.intentLocks && !service.intentLocks[intentId]
    requires intentId in service.intentState
    modifies service`intentLocks, service`intentState, service.pool, service.pool.pool
    modifies service.counter, service.switches
    ensures service.Valid(G)
    ensures removed ==>
      && service.intentLocks == old(service.intentLocks)[intentId := true] - {intentId}
      && service.intentState == old(service.intentState) - {intentId}
      && service.pool.State()
           == Pool.AfterFree(old(service.pool.State()), intentId, old(service.intentState)[intentId].collectionId)
      && Removed(G, old(service.SlotOfIntent(intentId)), old(service.intentState)[intentId].entities,
                 old(service.counter.Store(service.switches)), service.counter.Store(service.switches))
    ensures service.switches.asked >= old(service.switches.asked)
    ensures !Refusal(service.switches.answer, old(service.switches.asked), service.switches.asked) ==>
      (removed <==> NoneNegative(G, old(service.SlotOfIntent(intentId)), NO_ENTITIES,
                                 old(service.intentState)[intentId].entities,
                                 old(service.counter.Store(service.switches))))
  {
    var shouldRetryLater, started := service.DisableTelemetry(G, intentId);
    ghost var t;
    removed, t := service.RemoveIntent(G, switchIds, intentId);
  }

  /** Configuring an intent that is not known, undisturbed. */
  method ConfigureNew(service: TelemetryService, G: Graph, switchIds: map<Name, int>, req: Request)
    returns (ok: bool, ghost E: Entities)
    requires service.Valid(G) && Serves(G, service.programs, req)
    requires req.intentId !in service.intentLocks
    modifies service`intentLocks, service`intentState, service.pool, service.pool.pool
    modifies service.counter, service.switches
    ensures service.Valid(G)
    ensures !ok ==>
      && service.intentLocks == old(service.intentLocks) && service.intentState == old(service.intentState)
      && service.pool.State() == old(service.pool.State())
    ensures ok ==>
      && service.intentState
           == old(service.intentState)[req.intentId := IntentState(E, req.collectionId, req.collector)]
      && service.intentLocks == old(service.intentLocks)[req.intentId := false]
      && service.pool.State() == Pool.AfterAlloc(old(service.pool.State()), req.intentId, req.collectionId).0
      && Added(G, service.SlotOfIntent(req.intentId), E, old(service.counter.Store(service.switches)),
               service.counter.Store(service.switches))
    ensures service.switches.asked >= old(service.switches.asked)
    ensures !Refusal(service.switches.answer, old(service.switches.asked), service.switches.asked) ==>
      (ok <==> old(service.Reserved(req)).Allocated?)
  {
    ghost var before, k := service.counter.Store(service.switches), service.Reserved(req);
    assert IntentOk(service.intentLocks, service.intentState, service.pool.State().slots, req.intentId);
    var r;
    ghost var t;
    r, E, t := service.ConfigureTelemetry(G, switchIds, req);
    ok := r == Ok;
    if ok {
      FirstAdds(G, k.index, E, before, service.counter.Store(service.switches));
    } else if k.Allocated? {
      FirstRemovesNothing(G, k.index, E, before);
    }
  }

  /** Configuring an intent and disabling it again, both with success, leaves locks, states and pool as
      they were and every count unchanged. Both succeed if there is a slot and every switch answers. */
  method ConfigureThenDisable(service: TelemetryService, G: Graph, switchIds: map<Name, int>, req: Request)
    returns (done: bool)
    requires service.Valid(G) && Serves(G, service.programs, req)
    requires req.intentId !in service.intentLocks
    modifies service`intentLocks, service`intentState, service.pool, service.pool.pool
    modifies service.counter, service.switches
    ensures service.Valid(G)
    ensures done ==>
      && service.intentLocks == old(service.intentLocks) && service.intentState == old(service.intentState)
      && service.pool.State() == old(service.pool.State())
      && SameCounts(old(service.counter.Store(service.switches)), service.counter.Store(service.switches))
    ensures service.switches.asked >= old(service.switches.asked)
    ensures !Refusal(service.switches.answer, old(service.switches.asked), service.switches.asked) ==>
      (done <==> old(service.Reserved(req)).Allocated?)
  {
    ghost var x, s, before := req.intentId, service.pool.State(), service.counter.Store(service.switches);
    ghost var locks, states := service.intentLocks, service.intentState;
    assert IntentOk(locks, states, s.slots, x);
    ghost var E;
    done, E := ConfigureNew(service, G, switchIds, req);
    if !done {
      return;
    }
    ghost var middle, k, asked :=
      service.counter.Store(service.switches), service.SlotOfIntent(x), service.switches.asked;
    assert IntentOk(service.intentLocks, service.intentState, service.pool.State().slots, x);
    BackToStart(locks, states, s, x, service.intentState[x]);
    AddedCanGo(G, k, E, before, middle);
    done := DisableAndWait(service, G, switchIds, req.intentId);
    if done {
      CountsBack(G, k, E, before, middle, service.counter.Store(service.switches));
    }
    NoRefusalSoFar(service.switches.answer, old(service.switches.asked), asked, service.switches.asked);
  }

  ghost predicate SameCounts(before: Store, after: Store) {
    forall ref :: Count(after, ref) == Count(before, ref)
  }

  lemma NoRefusalSoFar(answer: nat -> bool, from: nat, middle: nat, to: nat)
    requires from <= middle <= to
    ensures Refusal(answer, from, to) <==> Refusal(answer, from, middle) || Refusal(answer, middle, to)
  {
  }

  ghost predicate Added(G: Graph, k: int, E: Entities, before: Store, after: Store) {
    forall ref {:trigger Count(after, ref)} :: Count(after, ref) == Count(before, ref) + EntityRefs(G, k, E)[ref]
  }

  /** A first configuration removes nothing... */
  lemma FirstRemovesNothing(G: Graph, k: int, E: Entities, before: Store)
    requires Consistent(before)
    ensures NoneNegative(G, k, Difference(E, NO_ENTITIES), Difference(NO_ENTITIES, E), before)
  {
    CreateAndDeleteAreClean(E);
    forall ref ensures Count(before, ref) >= EntityRefs(G, k, NO_ENTITIES)[ref] {
      assert EntityRefs(G, k, NO_ENTITIES)[ref] == 0;
    }
  }

  /** ...and what it adds does not drift... */
  lemma FirstAdds(G: Graph, k: int, E: Entities, before: Store, after: Store)
    requires Switched(G, k, NO_ENTITIES, E, before, after)
    ensures Added(G, k, E, before, after)
  {
    CreateAndDeleteAreClean(E);
    assert CountsSwitch(G, k, NO_ENTITIES, E, before, after);
    forall ref ensures Count(after, ref) == Count(before, ref) + EntityRefs(G, k, E)[ref] {
      CleanHasNoDrift(G, NO_ENTITIES, E, ref);
      assert EntityRefs(G, k, NO_ENTITIES)[ref] == 0;
    }
  }

  /** ...and can be removed again. */
  lemma AddedCanGo(G: Graph, k: int, E: Entities, before: Store, middle: Store)
    requires Consistent(before) && Added(G, k, E, before, middle)
    ensures NoneNegative(G, k, NO_ENTITIES, E, middle)
  {
  }

  lemma BackToStart(locks: map<string, bool>, states: map<string, IntentState>, s: Pool.PoolState, x: string,
                    st: IntentState)
    requires IntentOk(locks, states, s.slots, x) && x !in locks && Pool.Consistent(s) && st.collectionId != ""
    requires Pool.FirstOwned(Pool.AfterAlloc(s, x, st.collectionId).0.slots, x, st.collectionId) < |s.slots|
    ensures locks[x := false] - {x} == locks && states[x := st] - {x} == states
    ensures Pool.AfterFree(Pool.AfterAlloc(s, x, st.collectionId).0, x, st.collectionId) == s
  {
    forall j: nat ensures !Uses(s.slots, j, x) {
    }
    Allocation(s, x, st.collectionId, false);
  }

  lemma CountsBack(G: Graph, k: int, E: Entities, before: Store, middle: Store, after: Store)
    requires Added(G, k, E, before, middle) && Removed(G, k, E, middle, after)
    ensures SameCounts(before, after)
  {
    forall ref ensures Count(after, ref) == Count(before, ref) {
      assert Count(middle, ref) == Count(before, ref) + EntityRefs(G, k, E)[ref];
    }
  }
}
