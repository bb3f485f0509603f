/** What one call of the service does to the tables. */
module Commitments {
  // The entries it compiles, the answers it gets from the switches, the counts it leaves, and when it succeeds.

  import opened Topology
  import opened Tables
  import opened Gathering
  import opened TelemetryEntities
  import opened Protocol
  import opened Updates
  import opened EntryGeneration
  import SoleUser

  /** The entries to add and to remove, the answers of the switches to the changes and to the undos, and the
      changes that could not be undone. */
  datatype Commitment = Commitment(toAdd: ConfigEntries, toRemove: ConfigEntries,
                                   deviceOk: seq<bool>, undoOk: seq<bool>, undone: seq<Action>)
  {
    function Log(): seq<Action> { UpdateLog(toAdd, toRemove) }

    predicate Refused() { false in deviceOk || false in undoOk }
  }

  const NOTHING_SENT := Commitment(NO_ENTRIES, NO_ENTRIES, [], [], [])

  /** `ce` are the entries of the entities and say what is meant. They are bound so that the predicate unfolds
      only where it is used. */
  ghost predicate Compiles(G: Graph, switchIds: map<Name, int>, c: Collector, k: int, E: Entities, ce: ConfigEntries)
    requires Closed(G)
  {
    forall x {:trigger EntriesOf(G, switchIds, E, c, k, x)} :: x == ce ==>
      EntriesOf(G, switchIds, E, c, k, x) && SaysEntities(G, switchIds, E, c, k, x)
  }

  /** What a call makes of the tables when it adds and removes these entities under the number `k`. */
  ghost predicate Outcome(G: Graph, switchIds: map<Name, int>, c: Collector, k: int, added: Entities,
                          removed: Entities, before: Store, after: Store, t: Commitment, ok: bool)
    requires Closed(G)
  {
    && Compiles(G, switchIds, c, k, added, t.toAdd) && Compiles(G, switchIds, c, k, removed, t.toRemove)
    && Runs(before, t, ok, after)
  }

  /** The log is committed, and undone as far as possible if the commit fails; again bound. */
  ghost predicate Runs(before: Store, t: Commitment, ok: bool, after: Store) {
    forall log {:trigger Ran(before, log, t.deviceOk, t.undoOk, ok, after, t.undone)} :: log == t.Log() ==>
      Ran(before, log, t.deviceOk, t.undoOk, ok, after, t.undone)
  }

  /** With the answers of the switches every action of the log is done. */
  ghost predicate Completes(before: Store, t: Commitment) {
    |t.deviceOk| == |t.Log()| && Commit(before, t.Log(), t.deviceOk).1 == |t.Log()|
  }

  /** A call succeeds exactly if its commit completes. */
  lemma SuccessIsCompletion(before: Store, t: Commitment, ok: bool, after: Store)
    requires Runs(before, t, ok, after)
    ensures ok <==> Completes(before, t)
  {
    assert Ran(before, t.Log(), t.deviceOk, t.undoOk, ok, after, t.undone);
  }

  lemma NothingIsEmpty(G: Graph, switchIds: map<Name, int>, c: Collector, k: int)
    requires Closed(G)
    ensures Compiles(G, switchIds, c, k, NO_ENTITIES, NO_ENTRIES)
  {
    var edges: seq<Edge>, names: seq<Name> := [], [];
    assert Enumerates(edges, NO_ENTITIES.sinks) && ListsSinks(G, c, k, edges, [], []);
    assert Enumerates(names, NO_ENTITIES.transits) && ListsTransits(switchIds, names, []);
    assert ListsSources(G, NO_ENTITIES.sources, k, edges, [], []);
    EntriesSayEntities(G, switchIds, NO_ENTITIES, c, k, NO_ENTRIES);
  }

  lemma CompiledCounts(G: Graph, switchIds: map<Name, int>, c: Collector, k: int, E: Entities, ce: ConfigEntries)
    requires Closed(G) && Compiles(G, switchIds, c, k, E, ce)
    ensures CompiledFrom(G, k, E, ce)
  {
    assert EntriesOf(G, switchIds, E, c, k, ce);
    EntriesAreCompiled(G, switchIds, E, c, k, ce);
  }

  lemma NetOfCall(G: Graph, k: int, added: Entities, removed: Entities, toAdd: ConfigEntries,
                  toRemove: ConfigEntries, ref: Ref)
    requires CompiledFrom(G, k, added, toAdd) && CompiledFrom(G, k, removed, toRemove)
    ensures Net(UpdateLog(toAdd, toRemove), ref) + EntityRefs(G, k, removed)[ref] == EntityRefs(G, k, added)[ref]
  {
    NetConcat(ApplyLog(toAdd), DeleteLog(toRemove), ref);
    NetOfApply(G, k, added, toAdd, ref);
    NetOfDelete(G, k, removed, toRemove, ref);
  }

  // ---- When a call succeeds ----

  /** The tables count at least what is removed and not added. */
  ghost predicate CountsCover(G: Graph, k: int, added: Entities, removed: Entities, before: Store) {
    forall ref {:trigger Count(before, ref)} ::
      Count(before, ref) + EntityRefs(G, k, added)[ref] >= EntityRefs(G, k, removed)[ref]
  }

  /** So no count would go negative; bound as above. */
  ghost predicate NoneNegative(G: Graph, k: int, added: Entities, removed: Entities, before: Store) {
    forall s {:trigger CountsCover(G, k, added, removed, s)} :: s == before ==> CountsCover(G, k, added, removed, s)
  }

  lemma CallCreatesFirst(toAdd: ConfigEntries, toRemove: ConfigEntries)
    ensures CreatesFirst(UpdateLog(toAdd, toRemove))
  {
    assert CreatesUpTo(UpdateLog(toAdd, toRemove), |ApplyLog(toAdd)|);
  }

  lemma AllAnswered(deviceOk: seq<bool>)
    requires false !in deviceOk
    ensures deviceOk == SoleUser.AllOk(|deviceOk|)
  {
    forall i | 0 <= i < |deviceOk| ensures deviceOk[i] {
      assert deviceOk[i] in deviceOk;
    }
  }

  /** With switches that answer, a call succeeds exactly if it would leave no count negative. */
  lemma WhenAnsweredSucceeds(G: Graph, switchIds: map<Name, int>, c: Collector, k: int, added: Entities,
                             removed: Entities, before: Store, after: Store, t: Commitment, ok: bool)
    requires Closed(G) && Consistent(before) && false !in t.deviceOk
    requires Outcome(G, switchIds, c, k, added, removed, before, after, t, ok)
    ensures ok <==> NoneNegative(G, k, added, removed, before)
  {
    CompiledCounts(G, switchIds, c, k, added, t.toAdd);
    CompiledCounts(G, switchIds, c, k, removed, t.toRemove);
    CallCreatesFirst(t.toAdd, t.toRemove);
    AllAnswered(t.deviceOk);
    assert Ran(before, t.Log(), t.deviceOk, t.undoOk, ok, after, t.undone);
    SoleUser.WhenCommitCompletes(before, t.Log());
    forall ref
      ensures Net(t.Log(), ref) + EntityRefs(G, k, removed)[ref] == EntityRefs(G, k, added)[ref]
    {
      NetOfCall(G, k, added, removed, t.toAdd, t.toRemove, ref);
    }
    assert CountsCover(G, k, added, removed, before) <==> forall ref :: Count(before, ref) + Net(t.Log(), ref) >= 0;
  }

  // ---- What a successful call leaves ----

  /** The counts after an update: those before, less what the old entities count, plus what the new ones
      count and the drift. */
  ghost predicate CountsSwitch(G: Graph, k: int, E: Entities, F: Entities, before: Store, after: Store) {
    forall ref {:trigger Count(after, ref)} ::
      Count(after, ref) + EntityRefs(G, k, E)[ref]
        == Count(before, ref) + EntityRefs(G, k, F)[ref] + Drift(G, E, F, ref)
  }

  /** The same; bound as above. */
  ghost predicate Switched(G: Graph, k: int, E: Entities, F: Entities, before: Store, after: Store) {
    forall s {:trigger CountsSwitch(G, k, E, F, before, s)} :: s == after ==> CountsSwitch(G, k, E, F, before, s)
  }

  lemma LogSwitches(G: Graph, k: int, E: Entities, F: Entities, toAdd: ConfigEntries, toRemove: ConfigEntries,
                    before: Store, after: Store)
    requires UpdatesFromTo(G, k, E, F, toAdd, toRemove)
    requires forall ref :: Count(after, ref) == Count(before, ref) + Net(UpdateLog(toAdd, toRemove), ref)
    ensures CountsSwitch(G, k, E, F, before, after)
  {
    forall ref
      ensures Count(after, ref) + EntityRefs(G, k, E)[ref]
           == Count(before, ref) + EntityRefs(G, k, F)[ref] + Drift(G, E, F, ref)
    {
      NetOfUpdate(G, k, E, F, toAdd, toRemove, ref);
    }
  }

  lemma SuccessSwitches(G: Graph, switchIds: map<Name, int>, c: Collector, k: int, E: Entities, F: Entities,
                        before: Store, after: Store, t: Commitment)
    requires Closed(G) && Consistent(before)
    requires Outcome(G, switchIds, c, k, Difference(F, E), Difference(E, F), before, after, t, true)
    ensures Switched(G, k, E, F, before, after)
  {
    CompiledCounts(G, switchIds, c, k, Difference(F, E), t.toAdd);
    CompiledCounts(G, switchIds, c, k, Difference(E, F), t.toRemove);
    assert Ran(before, t.Log(), t.deviceOk, t.undoOk, true, after, t.undone);
    RanCounts(before, t.Log(), t.deviceOk, t.undoOk, true, after, t.undone);
    LogSwitches(G, k, E, F, t.toAdd, t.toRemove, before, after);
  }

  ghost predicate Removed(G: Graph, k: int, E: Entities, before: Store, after: Store) {
    forall ref {:trigger Count(after, ref)} :: Count(after, ref) + EntityRefs(G, k, E)[ref] == Count(before, ref)
  }

  lemma SuccessRemoves(G: Graph, switchIds: map<Name, int>, c: Collector, k: int, E: Entities, before: Store,
                       after: Store, t: Commitment)
    requires Closed(G) && Consistent(before)
    requires Outcome(G, switchIds, c, k, NO_ENTITIES, E, before, after, t, true)
    ensures Removed(G, k, E, before, after)
  {
    CompiledCounts(G, switchIds, c, k, NO_ENTITIES, t.toAdd);
    CompiledCounts(G, switchIds, c, k, E, t.toRemove);
    assert Ran(before, t.Log(), t.deviceOk, t.undoOk, true, after, t.undone);
    RanCounts(before, t.Log(), t.deviceOk, t.undoOk, true, after, t.undone);
    forall ref ensures Count(after, ref) + EntityRefs(G, k, E)[ref] == Count(before, ref) {
      NetOfCall(G, k, NO_ENTITIES, E, t.toAdd, t.toRemove, ref);
      assert EntityRefs(G, k, NO_ENTITIES)[ref] == 0;
    }
  }

  /** What the switches hold after a successful call they held before, unchanged, or it is an entry that the
      call added. Every entry that was added and that the tables still count is there. */
  lemma SuccessInstalls(before: Store, after: Store, t: Commitment, ref: Ref)
    requires Consistent(before) && Runs(before, t, true, after)
    ensures ref in after.installed ==>
      || (ref in before.installed && before.installed[ref] == after.installed[ref])
      || Listed(t.toAdd, ConfigEntry(ref, after.installed[ref])) > 0
    ensures ref in after.installed <==> Count(before, ref) + Net(t.Log(), ref) > 0
  {
    assert Ran(before, t.Log(), t.deviceOk, t.undoOk, true, after, t.undone);
    RanCounts(before, t.Log(), t.deviceOk, t.undoOk, true, after, t.undone);
    if ref in after.installed {
      var x := after.installed[ref];
      InstalledIsOldOrCreated(before, t.Log(), t.deviceOk, ref);
      if CreatedBy(t.Log(), ref, x) {
        assert Action(ref, x, true) in multiset(t.Log());
        LogsCarryEntries(t.toAdd, t.toRemove, Action(ref, x, true));
      }
    }
  }

  // ---- What a failed call leaves ----

  function Creates(log: seq<Action>, ref: Ref): nat {
    if log == [] then 0 else (if log[0].ref == ref && log[0].isCreate then 1 else 0) + Creates(log[1..], ref)
  }

  function Deletes(log: seq<Action>, ref: Ref): nat {
    if log == [] then 0 else (if log[0].ref == ref && !log[0].isCreate then 1 else 0) + Deletes(log[1..], ref)
  }

  lemma {:induction false} NetIsCreatesLessDeletes(log: seq<Action>, ref: Ref)
    ensures Net(log, ref) == Creates(log, ref) - Deletes(log, ref)
  {
    if log == [] {
    } else {
      NetIsCreatesLessDeletes(log[1..], ref);
    }
  }

  lemma {:induction false} CreatesConcat(a: seq<Action>, b: seq<Action>, ref: Ref)
    ensures Creates(a + b, ref) == Creates(a, ref) + Creates(b, ref)
    ensures Deletes(a + b, ref) == Deletes(a, ref) + Deletes(b, ref)
  {
    if a == [] {
      assert a + b == b;
    } else {
      CreatesConcat(a[1..], b, ref);
      assert (a + b)[1..] == a[1..] + b;
    }
  }

  lemma TakenOut(log: seq<Action>, i: nat, ref: Ref)
    requires i < |log|
    ensures multiset(log[..i] + log[i + 1..]) == multiset(log) - multiset{log[i]}
    ensures Creates(log, ref)
         == Creates(log[..i] + log[i + 1..], ref) + (if log[i].ref == ref && log[i].isCreate then 1 else 0)
    ensures Deletes(log, ref)
         == Deletes(log[..i] + log[i + 1..], ref) + (if log[i].ref == ref && !log[i].isCreate then 1 else 0)
  {
    var a, x, b := log[..i], log[i], log[i + 1..];
    assert log == a + ([x] + b);
    CreatesConcat(a, [x] + b, ref);
    CreatesConcat(a, b, ref);
    assert ([x] + b)[1..] == b;
  }

  lemma {:induction false} FewerActions(some: seq<Action>, log: seq<Action>, ref: Ref)
    requires multiset(some) <= multiset(log)
    ensures Creates(some, ref) <= Creates(log, ref) && Deletes(some, ref) <= Deletes(log, ref)
    decreases |some|
  {
    if some == [] {
    } else {
      assert some == [some[0]] + some[1..];
      assert some[0] in multiset(some) && some[0] in multiset(log);
      var i :| 0 <= i < |log| && log[i] == some[0];
      TakenOut(log, i, ref);
      FewerActions(some[1..], log[..i] + log[i + 1..], ref);
    }
  }

  lemma {:induction false} OnlyOneKind(creates: seq<Action>, deletes: seq<Action>, ref: Ref)
    requires forall i :: 0 <= i < |creates| ==> creates[i].isCreate
    requires forall i :: 0 <= i < |deletes| ==> !deletes[i].isCreate
    ensures Creates(deletes, ref) == 0 && Deletes(creates, ref) == 0
    ensures Creates(creates + deletes, ref) == Creates(creates, ref)
    ensures Deletes(creates + deletes, ref) == Deletes(deletes, ref)
    decreases |creates|, |deletes|
  {
    if creates == [] {
      assert creates + deletes == deletes;
      if deletes == [] {
      } else {
        OnlyOneKind([], deletes[1..], ref);
        assert [] + deletes[1..] == deletes[1..];
      }
    } else {
      OnlyOneKind(creates[1..], deletes, ref);
      assert (creates + deletes)[1..] == creates[1..] + deletes;
    }
  }

  lemma LogKinds(ce: ConfigEntries)
    ensures forall i :: 0 <= i < |ApplyLog(ce)| ==> ApplyLog(ce)[i].isCreate
    ensures forall i :: 0 <= i < |DeleteLog(ce)| ==> !DeleteLog(ce)[i].isCreate
  {
  }

  lemma CreatesOfUpdate(G: Graph, k: int, added: Entities, removed: Entities,
                        toAdd: ConfigEntries, toRemove: ConfigEntries, ref: Ref)
    requires CompiledFrom(G, k, added, toAdd) && CompiledFrom(G, k, removed, toRemove)
    ensures Creates(UpdateLog(toAdd, toRemove), ref) == EntityRefs(G, k, added)[ref]
    ensures Deletes(UpdateLog(toAdd, toRemove), ref) == EntityRefs(G, k, removed)[ref]
  {
    var creates, deletes := ApplyLog(toAdd), DeleteLog(toRemove);
    assert Net(creates, ref) == EntityRefs(G, k, added)[ref] by {
      NetOfApply(G, k, added, toAdd, ref);
    }
    assert Net(deletes, ref) + EntityRefs(G, k, removed)[ref] == 0 by {
      NetOfDelete(G, k, removed, toRemove, ref);
    }
    LogKinds(toAdd);
    LogKinds(toRemove);
    OnlyOneKind(creates, deletes, ref);
    NetIsCreatesLessDeletes(creates, ref);
    NetIsCreatesLessDeletes(deletes, ref);
  }

  /** A failed call moves a count only within its own creates and deletes: up at most by what it would have
      added, down at most by what it would have removed. */
  lemma FailureStaysWithin(G: Graph, switchIds: map<Name, int>, c: Collector, k: int, added: Entities,
                           removed: Entities, before: Store, after: Store, t: Commitment, ref: Ref)
    requires Closed(G) && Consistent(before)
    requires Outcome(G, switchIds, c, k, added, removed, before, after, t, false)
    ensures Count(before, ref) - EntityRefs(G, k, removed)[ref] <= Count(after, ref)
    ensures Count(after, ref) <= Count(before, ref) + EntityRefs(G, k, added)[ref]
  {
    CompiledCounts(G, switchIds, c, k, added, t.toAdd);
    CompiledCounts(G, switchIds, c, k, removed, t.toRemove);
    assert Ran(before, t.Log(), t.deviceOk, t.undoOk, false, after, t.undone);
    RanCounts(before, t.Log(), t.deviceOk, t.undoOk, false, after, t.undone);
    FewerActions(t.undone, t.Log(), ref);
    CreatesOfUpdate(G, k, added, removed, t.toAdd, t.toRemove, ref);
    NetIsCreatesLessDeletes(t.undone, ref);
  }
}
