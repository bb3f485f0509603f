/** From entities to changelogs, and what an intent contributes while one is committed or rolled back. */
module Updates {
  import opened Topology
  import opened Tables
  import opened Gathering
  import opened TelemetryEntities
  import opened ChangeLogs
  import opened Protocol

  datatype ConfigEntry = ConfigEntry(ref: Ref, entry: Entry)

  datatype ConfigEntries = ConfigEntries(
    activate: seq<ConfigEntry>, source: seq<ConfigEntry>, transit: seq<ConfigEntry>,
    sink: seq<ConfigEntry>, reporting: seq<ConfigEntry>)

  const NO_ENTRIES := ConfigEntries([], [], [], [], [])

  function Actions(entries: seq<ConfigEntry>, isCreate: bool): seq<Action> {
    seq(|entries|, i requires 0 <= i < |entries| => Action(entries[i].ref, entries[i].entry, isCreate))
  }

  /** Everything a source needs is created before it... */
  function SupportCreates(ce: ConfigEntries): seq<Action> {
    Actions(ce.sink, true) + Actions(ce.reporting, true) + Actions(ce.transit, true) + Actions(ce.activate, true)
  }

  function ApplyLog(ce: ConfigEntries): seq<Action> {
    SupportCreates(ce) + Actions(ce.source, true)
  }

  /** ...and deleted after it. */
  function SupportDeletes(ce: ConfigEntries): seq<Action> {
    Actions(ce.activate, false) + Actions(ce.transit, false) + Actions(ce.reporting, false) + Actions(ce.sink, false)
  }

  function DeleteLog(ce: ConfigEntries): seq<Action> {
    Actions(ce.source, false) + SupportDeletes(ce)
  }

  function UpdateLog(added: ConfigEntries, removed: ConfigEntries): seq<Action> {
    ApplyLog(added) + DeleteLog(removed)
  }

  method AddActions(changelog: ChangeLog, entries: seq<ConfigEntry>, isCreate: bool)
    modifies changelog`actions
    ensures changelog.actions == old(changelog.actions) + Actions(entries, isCreate)
  {
    for i := 0 to |entries|
      invariant changelog.actions == old(changelog.actions) + Actions(entries, isCreate)[..i]
    {
      changelog.AddAction(Action(entries[i].ref, entries[i].entry, isCreate));
    }
  }

  method MakeApplyChangelog(ce: ConfigEntries) returns (changelog: ChangeLog)
    ensures fresh(changelog) && changelog.doneCounter == -1 && changelog.actions == ApplyLog(ce)
  {
    changelog := new ChangeLog();
    AddActions(changelog, ce.sink, true);
    AddActions(changelog, ce.reporting, true);
    AddActions(changelog, ce.transit, true);
    AddActions(changelog, ce.activate, true);
    AddActions(changelog, ce.source, true);
  }

  method MakeDeleteChangelog(ce: ConfigEntries) returns (changelog: ChangeLog)
    ensures fresh(changelog) && changelog.doneCounter == -1 && changelog.actions == DeleteLog(ce)
  {
    changelog := new ChangeLog();
    AddActions(changelog, ce.source, false);
    AddActions(changelog, ce.activate, false);
    AddActions(changelog, ce.transit, false);
    AddActions(changelog, ce.reporting, false);
    AddActions(changelog, ce.sink, false);
    Regroup(Actions(ce.source, false), Actions(ce.activate, false), Actions(ce.transit, false),
            Actions(ce.reporting, false), Actions(ce.sink, false));
  }

  lemma Regroup<T>(a: seq<T>, b: seq<T>, c: seq<T>, d: seq<T>, e: seq<T>)
    ensures [] + a + b + c + d + e == a + (b + c + d + e)
  {
  }

  // ---- What the logs write ----

  lemma {:induction false} ActionsCarryEntries(entries: seq<ConfigEntry>, isCreate: bool, a: Action)
    ensures multiset(Actions(entries, isCreate))[a]
         == if a.isCreate == isCreate then multiset(entries)[ConfigEntry(a.ref, a.entry)] else 0
  {
    if entries == [] {
    } else {
      ActionsCarryEntries(entries[1..], isCreate, a);
      assert entries == [entries[0]] + entries[1..];
      assert Actions(entries, isCreate) == [Action(entries[0].ref, entries[0].entry, isCreate)]
                                         + Actions(entries[1..], isCreate);
    }
  }

  /** How often the five lists have an entry. */
  function Listed(ce: ConfigEntries, x: ConfigEntry): nat {
    multiset(ce.sink)[x] + multiset(ce.reporting)[x] + multiset(ce.transit)[x] + multiset(ce.activate)[x]
      + multiset(ce.source)[x]
  }

  /** An update creates exactly the listed new entries and deletes exactly the listed old ones, each with its
      contents, and does nothing else. */
  lemma LogsCarryEntries(added: ConfigEntries, removed: ConfigEntries, a: Action)
    ensures multiset(ApplyLog(added))[a] == if a.isCreate then Listed(added, ConfigEntry(a.ref, a.entry)) else 0
    ensures multiset(DeleteLog(removed))[a] == if a.isCreate then 0 else Listed(removed, ConfigEntry(a.ref, a.entry))
    ensures multiset(UpdateLog(added, removed))[a]
         == Listed(if a.isCreate then added else removed, ConfigEntry(a.ref, a.entry))
  {
    PartsCarryEntries(added, true, a);
    PartsCarryEntries(removed, false, a);
  }

  lemma PartsCarryEntries(ce: ConfigEntries, c: bool, a: Action)
    ensures multiset(Actions(ce.sink, c))[a] + multiset(Actions(ce.reporting, c))[a]
          + multiset(Actions(ce.transit, c))[a] + multiset(Actions(ce.activate, c))[a]
          + multiset(Actions(ce.source, c))[a]
         == if a.isCreate == c then Listed(ce, ConfigEntry(a.ref, a.entry)) else 0
  {
    ActionsCarryEntries(ce.sink, c, a);
    ActionsCarryEntries(ce.reporting, c, a);
    ActionsCarryEntries(ce.transit, c, a);
    ActionsCarryEntries(ce.activate, c, a);
    ActionsCarryEntries(ce.source, c, a);
  }

  // ---- What the logs count ----

  function RefsOf(entries: seq<ConfigEntry>): multiset<Ref> {
    if entries == [] then multiset{} else multiset{entries[0].ref} + RefsOf(entries[1..])
  }

  /** `ce` lists, in some order, the entries of the entities. */
  ghost predicate CompiledFrom(G: Graph, collectionId: int, E: Entities, ce: ConfigEntries) {
    && RefsOf(ce.sink) == SinkRefs(G, E)
    && RefsOf(ce.reporting) == ReportingRefs(collectionId, E)
    && RefsOf(ce.transit) == TransitRefs(E)
    && RefsOf(ce.activate) == ActivateRefs(G, E)
    && RefsOf(ce.source) == SourceRefs(E)
  }

  lemma {:induction false} NetOfActions(entries: seq<ConfigEntry>, isCreate: bool, r: Ref)
    ensures isCreate ==> Net(Actions(entries, isCreate), r) == RefsOf(entries)[r]
    ensures !isCreate ==> Net(Actions(entries, isCreate), r) + RefsOf(entries)[r] == 0
  {
    if entries == [] {
    } else {
      NetOfActions(entries[1..], isCreate, r);
      assert Actions(entries, isCreate)[1..] == Actions(entries[1..], isCreate);
    }
  }

  lemma NetOfApply(G: Graph, collectionId: int, E: Entities, ce: ConfigEntries, r: Ref)
    requires CompiledFrom(G, collectionId, E, ce)
    ensures Net(SupportCreates(ce), r) == SupportRefs(G, collectionId, E)[r] + ActivateRefs(G, E)[r]
    ensures Net(Actions(ce.source, true), r) == SourceRefs(E)[r]
    ensures Net(ApplyLog(ce), r) == EntityRefs(G, collectionId, E)[r]
  {
    NetOfActions(ce.sink, true, r);
    NetOfActions(ce.reporting, true, r);
    NetOfActions(ce.transit, true, r);
    NetOfActions(ce.activate, true, r);
    NetOfActions(ce.source, true, r);
    NetConcat(Actions(ce.sink, true), Actions(ce.reporting, true), r);
    NetConcat(Actions(ce.sink, true) + Actions(ce.reporting, true), Actions(ce.transit, true), r);
    NetConcat(Actions(ce.sink, true) + Actions(ce.reporting, true) + Actions(ce.transit, true),
              Actions(ce.activate, true), r);
    NetConcat(SupportCreates(ce), Actions(ce.source, true), r);
  }

  lemma NetOfDelete(G: Graph, collectionId: int, E: Entities, ce: ConfigEntries, r: Ref)
    requires CompiledFrom(G, collectionId, E, ce)
    ensures Net(Actions(ce.source, false), r) + SourceRefs(E)[r] == 0
    ensures Net(SupportDeletes(ce), r) + SupportRefs(G, collectionId, E)[r] + ActivateRefs(G, E)[r] == 0
    ensures Net(DeleteLog(ce), r) + EntityRefs(G, collectionId, E)[r] == 0
  {
    NetOfActions(ce.sink, false, r);
    NetOfActions(ce.reporting, false, r);
    NetOfActions(ce.transit, false, r);
    NetOfActions(ce.activate, false, r);
    NetOfActions(ce.source, false, r);
    NetConcat(Actions(ce.activate, false), Actions(ce.transit, false), r);
    NetConcat(Actions(ce.activate, false) + Actions(ce.transit, false), Actions(ce.reporting, false), r);
    NetConcat(Actions(ce.activate, false) + Actions(ce.transit, false) + Actions(ce.reporting, false),
              Actions(ce.sink, false), r);
    NetConcat(Actions(ce.source, false), SupportDeletes(ce), r);
  }

  /** The log of an update from `E` to `F`. */
  ghost predicate UpdatesFromTo(G: Graph, collectionId: int, E: Entities, F: Entities,
                                added: ConfigEntries, removed: ConfigEntries)
  {
    && CompiledFrom(G, collectionId, Difference(F, E), added)
    && CompiledFrom(G, collectionId, Difference(E, F), removed)
  }

  /** An update changes every count as the entities of the intent change, plus the drift. */
  lemma NetOfUpdate(G: Graph, collectionId: int, E: Entities, F: Entities,
                    added: ConfigEntries, removed: ConfigEntries, r: Ref)
    requires UpdatesFromTo(G, collectionId, E, F, added, removed)
    ensures EntityRefs(G, collectionId, E)[r] + Net(UpdateLog(added, removed), r)
         == EntityRefs(G, collectionId, F)[r] + Drift(G, E, F, r)
  {
    UpdateEquation(G, collectionId, E, F, r);
    NetConcat(ApplyLog(added), DeleteLog(removed), r);
    NetOfApply(G, collectionId, Difference(F, E), added, r);
    NetOfDelete(G, collectionId, Difference(E, F), removed, r);
  }

  lemma UpdateCreatesFirst(G: Graph, collectionId: int, E: Entities, F: Entities,
                           added: ConfigEntries, removed: ConfigEntries)
    requires UpdatesFromTo(G, collectionId, E, F, added, removed)
    ensures CreatesFirst(UpdateLog(added, removed))
  {
    UpdateHasFourParts(G, collectionId, E, F, added, removed);
    FourPartsCreateFirst(SupportCreates(added), Actions(added.source, true),
                         Actions(removed.source, false), SupportDeletes(removed));
  }

  /** What Protocol asks of an update, key by key: an intent whose contribution was exact covers `r` after
      the update exactly if `r` does not drift, and at least if it does not drift down. For sink, reporting
      and transit keys that is always so; for an activation it fails only if its edge loses configs without
      gaining any. */
  lemma WhenUpdateCovers(G: Graph, collectionId: int, E: Entities, F: Entities,
                         added: ConfigEntries, removed: ConfigEntries, intent: Intent, r: Ref)
    requires UpdatesFromTo(G, collectionId, E, F, added, removed)
    requires Net(intent.committed, r) == EntityRefs(G, collectionId, E)[r]
    ensures CreatesFirst(UpdateLog(added, removed))
    ensures Covers(intent, UpdateLog(added, removed), EntityRefs(G, collectionId, F), r, true)
      <==> Drift(G, E, F, r) == 0
    ensures Covers(intent, UpdateLog(added, removed), EntityRefs(G, collectionId, F), r, false)
      <==> Drift(G, E, F, r) >= 0
    ensures IsSupportKey(r.key) ==> Drift(G, E, F, r) == 0
  {
    UpdateCreatesFirst(G, collectionId, E, F, added, removed);
    NetOfUpdate(G, collectionId, E, F, added, removed, r);
    SupportNeverDrifts(G, E, F, r);
  }

  lemma SupportNeverDrifts(G: Graph, E: Entities, F: Entities, r: Ref)
    ensures IsSupportKey(r.key) ==> Drift(G, E, F, r) == 0
  {
    DriftKeys(G, E, F, r);
    DriftKeys(G, F, E, r);
  }

  /** Earlier surpluses do no harm. */
  lemma UpdateStillCovers(G: Graph, collectionId: int, E: Entities, F: Entities,
                          added: ConfigEntries, removed: ConfigEntries, intent: Intent, r: Ref)
    requires UpdatesFromTo(G, collectionId, E, F, added, removed)
    requires Net(intent.committed, r) + Drift(G, E, F, r) >= EntityRefs(G, collectionId, E)[r]
    ensures Covers(intent, UpdateLog(added, removed), EntityRefs(G, collectionId, F), r, false)
  {
    NetOfUpdate(G, collectionId, E, F, added, removed, r);
  }

  /** Nothing to compare: creating from nothing and deleting everything are clean. */
  lemma CreateAndDeleteAreClean(E: Entities)
    ensures CleanUpdate(NO_ENTITIES, E) && Difference(E, NO_ENTITIES) == E && Difference(NO_ENTITIES, E) == NO_ENTITIES
    ensures CleanUpdate(E, NO_ENTITIES)
  {
    assert Difference(E, NO_ENTITIES).sources == E.sources;
    assert Difference(NO_ENTITIES, E).sources == map[];
    assert E.sources.Keys * {} == {} && {} * E.sources.Keys == {};
  }

  // ---- Never a source without its sinks ----

  /** All actions of the log create, or all delete; all are about configure-source keys, or none is. */
  ghost predicate Uniform(log: seq<Action>, isCreate: bool, isSource: bool) {
    forall i :: 0 <= i < |log| ==> log[i].isCreate == isCreate && log[i].ref.key.SourceKey? == isSource
  }

  lemma ActionsAreUniform(entries: seq<ConfigEntry>, isCreate: bool, isSource: bool)
    requires forall i :: 0 <= i < |entries| ==> entries[i].ref.key.SourceKey? == isSource
    ensures Uniform(Actions(entries, isCreate), isCreate, isSource)
  {
  }

  lemma UniformConcat(a: seq<Action>, b: seq<Action>, c: seq<Action>, d: seq<Action>, isCreate: bool, isSource: bool)
    requires Uniform(a, isCreate, isSource) && Uniform(b, isCreate, isSource)
    requires Uniform(c, isCreate, isSource) && Uniform(d, isCreate, isSource)
    ensures Uniform(a + b + c + d, isCreate, isSource)
  {
  }

  /** An update in four parts: support is created, sources are created, sources are deleted, support is deleted. */
  ghost predicate FourParts(A: seq<Action>, B: seq<Action>, C: seq<Action>, D: seq<Action>) {
    Uniform(A, true, false) && Uniform(B, true, true) && Uniform(C, false, true) && Uniform(D, false, false)
  }

  lemma FourPartsCreateFirst(A: seq<Action>, B: seq<Action>, C: seq<Action>, D: seq<Action>)
    requires FourParts(A, B, C, D)
    ensures CreatesUpTo((A + B) + (C + D), |A + B|)
  {
  }

  function Clip(k: int, n: nat): (c: nat)
    ensures c <= n
  {
    if k <= 0 then 0 else if k >= n then n else k
  }

  lemma NetOfPrefix(A: seq<Action>, B: seq<Action>, k: nat, r: Ref)
    requires k <= |A| + |B|
    ensures Net((A + B)[..k], r) == Net(A[..Clip(k, |A|)], r) + Net(B[..Clip(k - |A|, |B|)], r)
  {
    NetConcat(A[..Clip(k, |A|)], B[..Clip(k - |A|, |B|)], r);
    assert (A + B)[..k] == A[..Clip(k, |A|)] + B[..Clip(k - |A|, |B|)];
  }

  lemma NetOfFourParts(A: seq<Action>, B: seq<Action>, C: seq<Action>, D: seq<Action>, k: nat, r: Ref)
    requires k <= |A| + |B| + |C| + |D|
    ensures Net(((A + B) + (C + D))[..k], r)
      == Net(A[..Clip(k, |A|)], r) + Net(B[..Clip(k - |A|, |B|)], r)
       + Net(C[..Clip(k - |A| - |B|, |C|)], r) + Net(D[..Clip(k - |A| - |B| - |C|, |D|)], r)
  {
    NetOfPrefix(A + B, C + D, k, r);
    NetOfPrefix(A, B, Clip(k, |A| + |B|), r);
    NetOfPrefix(C, D, Clip(k - |A| - |B|, |C| + |D|), r);
  }

  lemma {:induction false} NetOfOthers(log: seq<Action>, r: Ref)
    requires forall i :: 0 <= i < |log| ==> log[i].ref != r
    ensures Net(log, r) == 0
  {
    if log == [] {
    } else {
      NetOfOthers(log[1..], r);
    }
  }

  /** Part of a list of creates counts at least zero and at most what the whole list counts. */
  lemma CreatesPrefix(log: seq<Action>, j: nat, r: Ref)
    requires j <= |log| && forall i :: 0 <= i < |log| ==> log[i].isCreate
    ensures 0 <= Net(log[..j], r) <= Net(log, r)
    ensures j == |log| ==> Net(log[..j], r) == Net(log, r)
  {
    CreatesAdd(log[..j], r);
    CreatesAdd(log[j..], r);
    NetConcat(log[..j], log[j..], r);
    assert log[..j] + log[j..] == log;
  }

  lemma DeletesPrefix(log: seq<Action>, j: nat, r: Ref)
    requires j <= |log| && forall i :: 0 <= i < |log| ==> !log[i].isCreate
    ensures Net(log, r) <= Net(log[..j], r) <= 0
    ensures j == |log| ==> Net(log[..j], r) == Net(log, r)
  {
    DeletesSubtract(log[..j], r);
    DeletesSubtract(log[j..], r);
    NetConcat(log[..j], log[j..], r);
    assert log[..j] + log[j..] == log;
  }

  /** Until the last part begins no support count has dropped; once the first part is done none is below
      what it will be in the end. */
  lemma SupportDuringUpdate(A: seq<Action>, B: seq<Action>, C: seq<Action>, D: seq<Action>, k: nat, r: Ref)
    requires FourParts(A, B, C, D) && k <= |A| + |B| + |C| + |D| && !r.key.SourceKey?
    ensures var net := Net(((A + B) + (C + D))[..k], r);
      && (k <= |A| + |B| + |C| ==> net >= 0)
      && (k >= |A| ==> net >= Net(A, r) + Net(D, r))
  {
    NetOfFourParts(A, B, C, D, k, r);
    CreatesPrefix(A, Clip(k, |A|), r);
    NetOfOthers(B[..Clip(k - |A|, |B|)], r);
    NetOfOthers(C[..Clip(k - |A| - |B|, |C|)], r);
    DeletesPrefix(D, Clip(k - |A| - |B| - |C|, |D|), r);
    assert D[..0] == [];
  }

  /** Source counts do not change outside the two middle parts. */
  lemma SourcesDuringUpdate(A: seq<Action>, B: seq<Action>, C: seq<Action>, D: seq<Action>, k: nat, r: Ref)
    requires FourParts(A, B, C, D) && k <= |A| + |B| + |C| + |D| && r.key.SourceKey?
    ensures var net := Net(((A + B) + (C + D))[..k], r);
      && (k <= |A| ==> net == 0)
      && net <= Net(B, r)
      && (k >= |A| + |B| + |C| ==> net == Net(B, r) + Net(C, r))
  {
    NetOfFourParts(A, B, C, D, k, r);
    NetOfOthers(A[..Clip(k, |A|)], r);
    NetOfOthers(D[..Clip(k - |A| - |B| - |C|, |D|)], r);
    CreatesPrefix(B, Clip(k - |A|, |B|), r);
    DeletesPrefix(C, Clip(k - |A| - |B|, |C|), r);
    assert B[..0] == [] && C[..0] == [];
  }

  lemma {:induction false} RefsMember(entries: seq<ConfigEntry>, i: nat)
    requires i < |entries|
    ensures entries[i].ref in RefsOf(entries)
  {
    if i == 0 {
    } else {
      RefsMember(entries[1..], i - 1);
    }
  }

  lemma SourceKeysOnly(E: Entities, r: Ref)
    ensures r in SourceRefs(E) ==> r.key.SourceKey?
  {
    GatherMember(E.sources.Keys, SourcePart(E.sources), r);
    if r in SourceRefs(E) {
      var e :| e in E.sources.Keys && r in SourcePart(E.sources)(e);
      ConfigCount(e.from, E.sources[e], r);
    }
  }

  lemma SupportKeysOnly(G: Graph, collectionId: int, E: Entities, r: Ref)
    ensures r in SinkRefs(G, E) ==> r.key.SinkKey?
    ensures r in ReportingRefs(collectionId, E) ==> r.key.ReportingKey?
    ensures r in TransitRefs(E) ==> r.key.TransitKey?
    ensures r in ActivateRefs(G, E) ==> r.key.ActivateKey?
  {
    GatherMember(E.sinks, SinkPart(G), r);
    GatherMember(E.sinks, ReportingPart(collectionId), r);
    GatherMember(E.transits, TransitPart(), r);
    GatherMember(E.sources.Keys, ActivatePart(G), r);
  }

  /** The keys of each list of entries. */
  lemma ListsAreKeyed(G: Graph, collectionId: int, E: Entities, ce: ConfigEntries)
    requires CompiledFrom(G, collectionId, E, ce)
    ensures forall i :: 0 <= i < |ce.sink| ==> ce.sink[i].ref.key.SinkKey?
    ensures forall i :: 0 <= i < |ce.reporting| ==> ce.reporting[i].ref.key.ReportingKey?
    ensures forall i :: 0 <= i < |ce.transit| ==> ce.transit[i].ref.key.TransitKey?
    ensures forall i :: 0 <= i < |ce.activate| ==> ce.activate[i].ref.key.ActivateKey?
    ensures forall i :: 0 <= i < |ce.source| ==> ce.source[i].ref.key.SourceKey?
  {
    forall i | 0 <= i < |ce.sink| ensures ce.sink[i].ref.key.SinkKey? {
      RefsMember(ce.sink, i);
      SupportKeysOnly(G, collectionId, E, ce.sink[i].ref);
    }
    forall i | 0 <= i < |ce.reporting| ensures ce.reporting[i].ref.key.ReportingKey? {
      RefsMember(ce.reporting, i);
      SupportKeysOnly(G, collectionId, E, ce.reporting[i].ref);
    }
    forall i | 0 <= i < |ce.transit| ensures ce.transit[i].ref.key.TransitKey? {
      RefsMember(ce.transit, i);
      SupportKeysOnly(G, collectionId, E, ce.transit[i].ref);
    }
    forall i | 0 <= i < |ce.activate| ensures ce.activate[i].ref.key.ActivateKey? {
      RefsMember(ce.activate, i);
      SupportKeysOnly(G, collectionId, E, ce.activate[i].ref);
    }
    forall i | 0 <= i < |ce.source| ensures ce.source[i].ref.key.SourceKey? {
      RefsMember(ce.source, i);
      SourceKeysOnly(E, ce.source[i].ref);
    }
  }

  lemma PartsAreUniform(G: Graph, collectionId: int, E: Entities, ce: ConfigEntries)
    requires CompiledFrom(G, collectionId, E, ce)
    ensures Uniform(SupportCreates(ce), true, false) && Uniform(Actions(ce.source, true), true, true)
    ensures Uniform(SupportDeletes(ce), false, false) && Uniform(Actions(ce.source, false), false, true)
  {
    ListsAreKeyed(G, collectionId, E, ce);
    forall c: bool
      ensures Uniform(Actions(ce.sink, c), c, false) && Uniform(Actions(ce.reporting, c), c, false)
      ensures Uniform(Actions(ce.transit, c), c, false) && Uniform(Actions(ce.activate, c), c, false)
      ensures Uniform(Actions(ce.source, c), c, true)
    {
      ActionsAreUniform(ce.sink, c, false);
      ActionsAreUniform(ce.reporting, c, false);
      ActionsAreUniform(ce.transit, c, false);
      ActionsAreUniform(ce.activate, c, false);
      ActionsAreUniform(ce.source, c, true);
    }
    UniformConcat(Actions(ce.sink, true), Actions(ce.reporting, true),
                  Actions(ce.transit, true), Actions(ce.activate, true), true, false);
    UniformConcat(Actions(ce.activate, false), Actions(ce.transit, false),
                  Actions(ce.reporting, false), Actions(ce.sink, false), false, false);
  }

  lemma UpdateHasFourParts(G: Graph, collectionId: int, E: Entities, F: Entities, added: ConfigEntries,
                           removed: ConfigEntries)
    requires UpdatesFromTo(G, collectionId, E, F, added, removed)
    ensures FourParts(SupportCreates(added), Actions(added.source, true),
                      Actions(removed.source, false), SupportDeletes(removed))
  {
    PartsAreUniform(G, collectionId, Difference(F, E), added);
    PartsAreUniform(G, collectionId, Difference(E, F), removed);
  }

  /** What the intent counts for `r` after `k` actions of an update that started from `E`. */
  ghost function CountAfter(G: Graph, collectionId: int, E: Entities, log: seq<Action>, k: nat, r: Ref): int
    requires k <= |log|
  {
    EntityRefs(G, collectionId, E)[r] + Net(log[..k], r)
  }

  predicate IsSupportKey(key: Key) {
    key.SinkKey? || key.ReportingKey? || key.TransitKey?
  }

  lemma SupportCounts(G: Graph, collectionId: int, E: Entities, F: Entities, added: ConfigEntries,
                      removed: ConfigEntries, k: nat, r: Ref)
    requires UpdatesFromTo(G, collectionId, E, F, added, removed)
    requires k <= |UpdateLog(added, removed)| && IsSupportKey(r.key)
    ensures k <= |ApplyLog(added)| + |removed.source| ==>
      CountAfter(G, collectionId, E, UpdateLog(added, removed), k, r) >= SupportRefs(G, collectionId, E)[r]
    ensures k >= |SupportCreates(added)| ==>
      CountAfter(G, collectionId, E, UpdateLog(added, removed), k, r) >= SupportRefs(G, collectionId, F)[r]
  {
    UpdateHasFourParts(G, collectionId, E, F, added, removed);
    SupportDuringUpdate(SupportCreates(added), Actions(added.source, true),
                        Actions(removed.source, false), SupportDeletes(removed), k, r);
    SupportNumbers(G, collectionId, E, F, added, removed, r);
  }

  lemma SupportNumbers(G: Graph, collectionId: int, E: Entities, F: Entities, added: ConfigEntries,
                       removed: ConfigEntries, r: Ref)
    requires UpdatesFromTo(G, collectionId, E, F, added, removed) && IsSupportKey(r.key)
    ensures EntityRefs(G, collectionId, E)[r] >= SupportRefs(G, collectionId, E)[r]
    ensures SupportRefs(G, collectionId, E)[r] + Net(SupportCreates(added), r) + Net(SupportDeletes(removed), r)
         == SupportRefs(G, collectionId, F)[r]
  {
    NetOfApply(G, collectionId, Difference(F, E), added, r);
    NetOfDelete(G, collectionId, Difference(E, F), removed, r);
    SupportKeysOnly(G, collectionId, Difference(F, E), r);
    SupportKeysOnly(G, collectionId, Difference(E, F), r);
    SupportExchangeAt(G, collectionId, E, F, r);
  }

  lemma SupportExchangeAt(G: Graph, collectionId: int, E: Entities, F: Entities, r: Ref)
    ensures SupportRefs(G, collectionId, E)[r] + SupportRefs(G, collectionId, Difference(F, E))[r]
         == SupportRefs(G, collectionId, F)[r] + SupportRefs(G, collectionId, Difference(E, F))[r]
  {
    SupportExchange(G, collectionId, E, F);
    ExchangeAt(SinkRefs(G, E), SinkRefs(G, Difference(F, E)), SinkRefs(G, F), SinkRefs(G, Difference(E, F)), r);
    ExchangeAt(ReportingRefs(collectionId, E), ReportingRefs(collectionId, Difference(F, E)),
               ReportingRefs(collectionId, F), ReportingRefs(collectionId, Difference(E, F)), r);
    ExchangeAt(TransitRefs(E), TransitRefs(Difference(F, E)), TransitRefs(F), TransitRefs(Difference(E, F)), r);
  }

  lemma SourceNumbers(G: Graph, collectionId: int, E: Entities, F: Entities, added: ConfigEntries,
                      removed: ConfigEntries, r: Ref)
    requires UpdatesFromTo(G, collectionId, E, F, added, removed) && r.key.SourceKey?
    ensures EntityRefs(G, collectionId, E)[r] == SourceRefs(E)[r]
    ensures Net(Actions(added.source, true), r) > 0 ==> r in SourceRefs(F)
    ensures SourceRefs(E)[r] + Net(Actions(added.source, true), r) + Net(Actions(removed.source, false), r) > 0 ==>
      r in SourceRefs(F)
  {
    NetOfApply(G, collectionId, Difference(F, E), added, r);
    NetOfDelete(G, collectionId, Difference(E, F), removed, r);
    SupportKeysOnly(G, collectionId, E, r);
    SplitSources(E, F);
    AddedIsNew(E, F, r);
    CommonIsNew(E, F, r);
  }

  lemma AddedIsNew(E: Entities, F: Entities, r: Ref)
    ensures r in SourceRefs(Difference(F, E)) ==> r in SourceRefs(F)
  {
    var D := Difference(F, E);
    GatherMember(D.sources.Keys, SourcePart(D.sources), r);
    GatherMember(F.sources.Keys, SourcePart(F.sources), r);
    if r in SourceRefs(D) {
      var e :| e in D.sources.Keys && r in SourcePart(D.sources)(e);
      ConfigCount(e.from, D.sources[e], r);
      ConfigCount(e.from, F.sources[e], r);
      if e in E.sources && r.key.SourceKey? {
        WithoutCount(F.sources[e], E.sources[e],
                     SourceConfig(r.key.src, r.key.dst, r.key.srcPort, r.key.dstPort, r.key.tunneled));
      }
      assert r in SourcePart(F.sources)(e);
    }
  }

  lemma CommonIsNew(E: Entities, F: Entities, r: Ref)
    ensures r in CommonRefs(E, F) ==> r in SourceRefs(F)
  {
    GatherMember(E.sources.Keys * F.sources.Keys, CommonPart(E, F), r);
    GatherMember(F.sources.Keys, SourcePart(F.sources), r);
    if r in CommonRefs(E, F) {
      var e :| e in E.sources.Keys * F.sources.Keys && r in CommonPart(E, F)(e);
      var a, b := E.sources[e], F.sources[e];
      ConfigCount(e.from, Common(a, b), r);
      ConfigCount(e.from, b, r);
      CommonCount(a, b, SourceConfig(r.key.src, r.key.dst, r.key.srcPort, r.key.dstPort, r.key.tunneled));
      assert r in SourcePart(F.sources)(e);
    }
  }

  /** Sources are those of the old entities until the new support is complete, and those of the new ones
      from the moment the old support is given up. */
  lemma SourceCounts(G: Graph, collectionId: int, E: Entities, F: Entities, added: ConfigEntries,
                     removed: ConfigEntries, k: nat, r: Ref)
    requires UpdatesFromTo(G, collectionId, E, F, added, removed)
    requires k <= |UpdateLog(added, removed)| && r.key.SourceKey?
    requires CountAfter(G, collectionId, E, UpdateLog(added, removed), k, r) > 0
    ensures k <= |SupportCreates(added)| ==> r in SourceRefs(E)
    ensures r in SourceRefs(E) || r in SourceRefs(F)
    ensures k >= |ApplyLog(added)| + |removed.source| ==> r in SourceRefs(F)
  {
    UpdateHasFourParts(G, collectionId, E, F, added, removed);
    SourcesDuringUpdate(SupportCreates(added), Actions(added.source, true),
                        Actions(removed.source, false), SupportDeletes(removed), k, r);
    SourceNumbers(G, collectionId, E, F, added, removed, r);
  }

  /** All sink, reporting and transit entries of `X` are counted after `k` actions. */
  ghost predicate SupportHeld(G: Graph, collectionId: int, E: Entities, log: seq<Action>, k: nat, X: Entities)
    requires k <= |log|
  {
    forall r {:trigger CountAfter(G, collectionId, E, log, k, r)} :: r in SupportRefs(G, collectionId, X) ==>
      CountAfter(G, collectionId, E, log, k, r) >= SupportRefs(G, collectionId, X)[r]
  }

  /** Never a source without its sinks: at every step of committing an update, and so at every step of
      rolling it back, a configure-source entry that the intent counts belongs to the old or to the new
      configuration, and all sink, reporting and transit entries of that configuration are counted. */
  lemma NeverSourceWithoutSinks(G: Graph, collectionId: int, E: Entities, F: Entities, added: ConfigEntries,
                                removed: ConfigEntries, k: nat, r: Ref)
    requires UpdatesFromTo(G, collectionId, E, F, added, removed)
    requires k <= |UpdateLog(added, removed)| && r.key.SourceKey?
    requires CountAfter(G, collectionId, E, UpdateLog(added, removed), k, r) > 0
    ensures (r in SourceRefs(E) && SupportHeld(G, collectionId, E, UpdateLog(added, removed), k, E))
         || (r in SourceRefs(F) && SupportHeld(G, collectionId, E, UpdateLog(added, removed), k, F))
  {
    SourceCounts(G, collectionId, E, F, added, removed, k, r);
    var log := UpdateLog(added, removed);
    var stillOld := k <= |ApplyLog(added)| + |removed.source| && r in SourceRefs(E);
    var X := if stillOld then E else F;
    forall s | s in SupportRefs(G, collectionId, X)
      ensures CountAfter(G, collectionId, E, log, k, s) >= SupportRefs(G, collectionId, X)[s]
    {
      SupportKeysOnly(G, collectionId, X, s);
      SupportCounts(G, collectionId, E, F, added, removed, k, s);
    }
    assert SupportHeld(G, collectionId, E, log, k, X);
  }

  ghost predicate SupportInstalled(s: State, G: Graph, collectionId: int, X: Entities) {
    forall t :: t in SupportRefs(G, collectionId, X) ==> t in s.store.installed
  }

  /** All updates on the way to `s` counted sink, reporting and transit keys exactly, as updates of this
      kind do, and failed undos took no more from these keys than they left. */
  ghost predicate SupportUndamaged(s: State) {
    forall t: Ref {:trigger Reached(s, t, true)} :: IsSupportKey(t.key) ==>
      Reached(s, t, true) && Lost(s.intents, t) >= 0
  }

  /** The same on the switches, whatever the other intents do meanwhile: in every reachable state in which
      intent `i` is updating, a configure-source entry that it has applied comes with the installed
      sink, reporting and transit entries of its old or its new configuration. Of the past only this is
      asked: that support is undamaged, and that the intent itself counted this source exactly. */
  lemma InstalledSourceHasSinks(s: State, i: nat, G: Graph, collectionId: int, E: Entities, F: Entities,
                                added: ConfigEntries, removed: ConfigEntries, r: Ref)
    requires SupportUndamaged(s)
    requires i < |s.intents| && s.intents[i].phase != Idle
    requires UpdatesFromTo(G, collectionId, E, F, added, removed)
    requires s.intents[i].need == EntityRefs(G, collectionId, E) && s.intents[i].log == UpdateLog(added, removed)
    requires r.key.SourceKey? && Net(s.intents[i].committed, r) == s.intents[i].need[r]
    requires Standing(s.intents[i], r) > 0
    ensures (r in SourceRefs(E) && SupportInstalled(s, G, collectionId, E))
         || (r in SourceRefs(F) && SupportInstalled(s, G, collectionId, F))
  {
    var intent, log := s.intents[i], UpdateLog(added, removed);
    assert Reached(s, Ref("", TransitKey), true);
    var k := StandingIsCount(s, i, G, collectionId, E, log);
    assert Standing(intent, r) == CountAfter(G, collectionId, E, log, k, r);
    NeverSourceWithoutSinks(G, collectionId, E, F, added, removed, k, r);
    var X := if r in SourceRefs(E) && SupportHeld(G, collectionId, E, log, k, E) then E else F;
    HeldSupportIsInstalled(s, i, G, collectionId, E, log, k, X);
  }

  /** The intent has applied the first `k` actions: what it counted exactly before, it counts as computed. */
  ghost predicate StandsAt(intent: Intent, G: Graph, collectionId: int, E: Entities, log: seq<Action>, k: nat)
    requires k <= |log|
  {
    forall t {:trigger CountAfter(G, collectionId, E, log, k, t)} :: Net(intent.committed, t) == intent.need[t] ==>
      Standing(intent, t) == CountAfter(G, collectionId, E, log, k, t)
  }

  lemma HeldSupportIsInstalled(s: State, i: nat, G: Graph, collectionId: int, E: Entities,
                               log: seq<Action>, k: nat, X: Entities)
    requires SupportUndamaged(s)
    requires i < |s.intents| && s.intents[i].need == EntityRefs(G, collectionId, E)
    requires k <= |log| && SupportHeld(G, collectionId, E, log, k, X)
    requires StandsAt(s.intents[i], G, collectionId, E, log, k)
    ensures SupportInstalled(s, G, collectionId, X)
  {
    forall t | t in SupportRefs(G, collectionId, X) ensures t in s.store.installed {
      SupportKeysOnly(G, collectionId, X, t);
      assert Reached(s, t, true);
      assert CountAfter(G, collectionId, E, log, k, t) >= SupportRefs(G, collectionId, X)[t];
      CountedSupportIsInstalled(s, i, G, collectionId, E, log, k, t);
    }
  }

  lemma CountedSupportIsInstalled(s: State, i: nat, G: Graph, collectionId: int, E: Entities,
                                  log: seq<Action>, k: nat, t: Ref)
    requires Reached(s, t, true) && Lost(s.intents, t) >= 0
    requires i < |s.intents| && s.intents[i].need == EntityRefs(G, collectionId, E)
    requires k <= |log| && CountAfter(G, collectionId, E, log, k, t) > 0
    requires Net(s.intents[i].committed, t) == s.intents[i].need[t] ==>
      Standing(s.intents[i], t) == CountAfter(G, collectionId, E, log, k, t)
    ensures t in s.store.installed
  {
    ReachedInv(s, t, true);
    assert Steady(s.intents[i], t, true);
    SupportInstalledAt(s, i, t);
  }

  lemma SupportInstalledAt(s: State, i: nat, t: Ref)
    requires Reached(s, t, true) && Lost(s.intents, t) >= 0
    requires i < |s.intents| && Standing(s.intents[i], t) > 0
    ensures t in s.store.installed
  {
    ReachedInv(s, t, true);
    TotalAtLeast(s.intents, i, t);
  }

  /** And while the intent is idle, with the entries of its configuration. */
  lemma IdleSourceHasSinks(s: State, i: nat, G: Graph, collectionId: int, E: Entities, r: Ref)
    requires SupportUndamaged(s) && i < |s.intents| && s.intents[i].phase == Idle
    requires s.intents[i].need == EntityRefs(G, collectionId, E)
    requires r.key.SourceKey? && Net(s.intents[i].committed, r) == s.intents[i].need[r]
    requires Standing(s.intents[i], r) > 0
    ensures r in SourceRefs(E) && SupportInstalled(s, G, collectionId, E)
  {
    SupportKeysOnly(G, collectionId, E, r);
    forall t | t in SupportRefs(G, collectionId, E) ensures t in s.store.installed {
      SupportKeysOnly(G, collectionId, E, t);
      assert Reached(s, t, true);
      IdleSupportIsInstalled(s, i, t);
    }
  }

  lemma IdleSupportIsInstalled(s: State, i: nat, t: Ref)
    requires Reached(s, t, true) && Lost(s.intents, t) >= 0
    requires i < |s.intents| && s.intents[i].phase == Idle && t in s.intents[i].need
    ensures t in s.store.installed
  {
    ReachedInv(s, t, true);
    assert Steady(s.intents[i], t, true);
    SupportInstalledAt(s, i, t);
  }

  lemma StandingIsCount(s: State, i: nat, G: Graph, collectionId: int, E: Entities, log: seq<Action>) returns (k: nat)
    requires Reached(s, Ref("", TransitKey), true) && i < |s.intents| && s.intents[i].phase != Idle
    requires s.intents[i].need == EntityRefs(G, collectionId, E) && s.intents[i].log == log
    ensures k <= |log|
    ensures StandsAt(s.intents[i], G, collectionId, E, log, k)
  {
    ReachedInv(s, Ref("", TransitKey), true);
    var intent := s.intents[i];
    assert Steady(intent, Ref("", TransitKey), true);
    k := if intent.phase.Committing? then intent.phase.done else intent.phase.left;
  }

  // ---- Configure, then disable, among others ----

  /** No event starts or ends a commit of intent `i`. */
  ghost predicate LeavesAlone(events: seq<Event>, i: nat) {
    forall j :: 0 <= j < |events| ==> !((events[j].Begin? || events[j].Finish? || events[j].Abort?) && events[j].i == i)
  }

  /** Until it ends, a commit that did not fail has changed nothing but its progress. */
  lemma {:induction false} WhileCommitting(s: State, events: seq<Event>, i: nat)
    requires Legal(s, events) && LeavesAlone(events, i) && i < |s.intents| && s.intents[i].phase != Idle
    ensures i < |After(s, events).intents|
    ensures var x, y := s.intents[i], After(s, events).intents[i];
      y.phase != Idle && (y.phase.Committing? ==> x.phase.Committing? && y == x.(phase := y.phase))
    decreases |events|
  {
    if events == [] {
    } else {
      WhileCommitting(Next(s, events[0]), events[1..], i);
    }
  }

  lemma {:induction false} WhileIdle(s: State, events: seq<Event>, i: nat)
    requires Legal(s, events) && LeavesAlone(events, i) && i < |s.intents| && s.intents[i].phase == Idle
    ensures i < |After(s, events).intents| && After(s, events).intents[i] == s.intents[i]
    decreases |events|
  {
    if events == [] {
    } else {
      WhileIdle(Next(s, events[0]), events[1..], i);
    }
  }

  /** Between Begin and Finish of intent `i` the events may happen. */
  ghost predicate CommitsAround(s: State, i: nat, log: seq<Action>, goal: multiset<Ref>, events: seq<Event>) {
    && Enabled(s, Begin(i, log, goal)) && LeavesAlone(events, i)
    && Legal(Next(s, Begin(i, log, goal)), events)
    && Enabled(After(Next(s, Begin(i, log, goal)), events), Finish(i))
  }

  ghost function AfterCommit(s: State, i: nat, log: seq<Action>, goal: multiset<Ref>, events: seq<Event>): State
    requires CommitsAround(s, i, log, goal, events)
  {
    Next(After(Next(s, Begin(i, log, goal)), events), Finish(i))
  }

  lemma CommitAdds(s: State, i: nat, log: seq<Action>, goal: multiset<Ref>, events: seq<Event>, r: Ref)
    requires CommitsAround(s, i, log, goal, events)
    ensures var s' := AfterCommit(s, i, log, goal, events);
      && i < |s'.intents| && s'.intents[i].phase == Idle
      && Contribution(s'.intents[i], r) == Contribution(s.intents[i], r) + Net(log, r)
  {
    WhileCommitting(Next(s, Begin(i, log, goal)), events, i);
    NetConcat(s.intents[i].committed, log, r);
  }

  /** Configure then disable, both committed, leave the contribution of the intent to every count as it
      was, whatever other intents do meanwhile and whatever the switches answer them. */
  lemma ConfigureThenDisableAddsNothing(s: State, i: nat, G: Graph, collectionId: int, E: Entities,
                                        created: ConfigEntries, deleted: ConfigEntries,
                                        during: seq<Event>, between: seq<Event>, later: seq<Event>, r: Ref)
    requires CompiledFrom(G, collectionId, E, created) && CompiledFrom(G, collectionId, E, deleted)
    requires var goal := EntityRefs(G, collectionId, E);
      && CommitsAround(s, i, ApplyLog(created), goal, during)
      && Legal(AfterCommit(s, i, ApplyLog(created), goal, during), between) && LeavesAlone(between, i)
      && CommitsAround(After(AfterCommit(s, i, ApplyLog(created), goal, during), between), i,
                       DeleteLog(deleted), multiset{}, later)
    ensures var goal := EntityRefs(G, collectionId, E);
      var configured := After(AfterCommit(s, i, ApplyLog(created), goal, during), between);
      var disabled := AfterCommit(configured, i, DeleteLog(deleted), multiset{}, later);
      && i < |configured.intents|
      && Contribution(configured.intents[i], r) == Contribution(s.intents[i], r) + goal[r]
      && i < |disabled.intents|
      && Contribution(disabled.intents[i], r) == Contribution(s.intents[i], r)
  {
    var goal := EntityRefs(G, collectionId, E);
    CommitAdds(s, i, ApplyLog(created), goal, during, r);
    WhileIdle(AfterCommit(s, i, ApplyLog(created), goal, during), between, i);
    var configured := After(AfterCommit(s, i, ApplyLog(created), goal, during), between);
    CommitAdds(configured, i, DeleteLog(deleted), multiset{}, later, r);
    NetOfApply(G, collectionId, E, created, r);
    NetOfDelete(G, collectionId, E, deleted, r);
  }
}
