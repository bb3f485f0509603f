/** Two intents that need the same entries, and one of them updates and disables. */
module Neighbours {
  import opened Topology
  import opened Tables
  import opened Gathering
  import opened TelemetryEntities
  import opened Protocol
  import opened Updates
  import opened SoleUser

  /** Two intents, by their logs: both configure, the first one updates and then disables, and each count is
      off by `drift` after the update. All four commits complete if the neighbour needs each entry at least
      as often as it drifted down. */
  lemma TwoIntents(create: seq<Action>, update: seq<Action>, delete: seq<Action>, neighbour: seq<Action>,
                   e: multiset<Ref>, f: multiset<Ref>, h: multiset<Ref>, drift: Ref -> int)
    returns (s: State)
    requires CreatesFirst(create) && CreatesFirst(update) && CreatesFirst(delete) && CreatesFirst(neighbour)
    requires forall r :: Net(create, r) == e[r] && Net(neighbour, r) == h[r]
    requires forall r :: e[r] + Net(update, r) == f[r] + drift(r) >= 0
    requires forall r :: Net(delete, r) + f[r] == 0 && drift(r) + h[r] >= 0
    ensures ReachableState(s) && Consistent(s.store) && |s.intents| == 2
    ensures forall i :: 0 <= i < 2 ==> s.intents[i].phase == Idle && s.intents[i].failed == []
    ensures s.intents[0].need == multiset{} && s.intents[1].need == h
    ensures forall r :: Count(s.store, r) == h[r] + drift(r)
  {
    var s0 := State(Store(map[], map[], map[]), []);
    assert Initial(s0) && Legal(s0, []) && After(s0, []) == s0;
    NextReachable(s0, Join);
    var s1 := Next(s0, Join);
    NextReachable(s1, Join);
    var s2 := Next(s1, Join);
    assert s2.intents == [FRESH, FRESH];
    var s3 := CommitOne(s2, 0, create, e);
    var s4 := CommitOne(s3, 1, neighbour, h);
    var s5 := CommitOne(s4, 0, update, f);
    s := CommitOne(s5, 0, delete, multiset{});
  }

  /** The same with the logs of the service. No undo failed and nothing was interleaved, and the neighbour
      finds each entry installed exactly if the drift has not used up its own count. */
  lemma NeighbourAfterDisable(G: Graph, k0: int, E: Entities, F: Entities,
                              created: ConfigEntries, added: ConfigEntries, removed: ConfigEntries,
                              deleted: ConfigEntries, k1: int, H: Entities, neighbour: ConfigEntries)
    returns (s: State)
    requires CompiledFrom(G, k0, E, created) && CompiledFrom(G, k1, H, neighbour)
    requires UpdatesFromTo(G, k0, E, F, added, removed) && CompiledFrom(G, k0, F, deleted)
    requires forall r :: Drift(G, E, F, r) + EntityRefs(G, k1, H)[r] >= 0
    ensures ReachableState(s) && |s.intents| == 2
    ensures forall i :: 0 <= i < 2 ==> s.intents[i].phase == Idle && s.intents[i].failed == []
    ensures s.intents[0].need == multiset{} && s.intents[1].need == EntityRefs(G, k1, H)
    ensures forall r :: r in s.store.installed <==> EntityRefs(G, k1, H)[r] + Drift(G, E, F, r) >= 1
  {
    var drift := (r: Ref) => Drift(G, E, F, r);
    ApplyCreatesFirst(created);
    ApplyCreatesFirst(neighbour);
    UpdateCreatesFirst(G, k0, E, F, added, removed);
    DeleteCreatesFirst(deleted);
    forall r
      ensures Net(ApplyLog(created), r) == EntityRefs(G, k0, E)[r]
      ensures Net(ApplyLog(neighbour), r) == EntityRefs(G, k1, H)[r]
    {
      NetOfApply(G, k0, E, created, r);
      NetOfApply(G, k1, H, neighbour, r);
    }
    forall r
      ensures EntityRefs(G, k0, E)[r] + Net(UpdateLog(added, removed), r) == EntityRefs(G, k0, F)[r] + drift(r) >= 0
    {
      UpdateLeavesNothingNegative(G, k0, E, F, added, removed, r);
    }
    forall r
      ensures Net(DeleteLog(deleted), r) + EntityRefs(G, k0, F)[r] == 0
      ensures drift(r) + EntityRefs(G, k1, H)[r] >= 0
    {
      NetOfDelete(G, k0, F, deleted, r);
      assert Drift(G, E, F, r) + EntityRefs(G, k1, H)[r] >= 0;
    }
    s := TwoIntents(ApplyLog(created), UpdateLog(added, removed), DeleteLog(deleted), ApplyLog(neighbour),
                    EntityRefs(G, k0, E), EntityRefs(G, k0, F), EntityRefs(G, k1, H), drift);
    forall r ensures r in s.store.installed <==> EntityRefs(G, k1, H)[r] + Drift(G, E, F, r) >= 1 {
      assert Count(s.store, r) == EntityRefs(G, k1, H)[r] + drift(r);
    }
  }

  /** With comparable lists only activations drift down, each at most as often as its edges are used. */
  lemma OnlyActivationsDriftDown(G: Graph, k: int, E: Entities, F: Entities, H: Entities, r: Ref)
    requires Comparable(E, F) && E.sources.Keys <= H.sources.Keys
    ensures Drift(G, E, F, r) + EntityRefs(G, k, H)[r] >= 0
  {
    ComparableHasSameCommon(E, F);
    GatherPointwise(GainOnly(F, E), ActivatePart(G), H.sources.Keys, ActivatePart(G), r);
  }

  /** So a neighbour loses an activation that it needs: the first intent updates so that an edge of both
      only loses configs, and then disables. */
  lemma NeighbourIsDeactivated(G: Graph, k0: int, E: Entities, F: Entities,
                               created: ConfigEntries, added: ConfigEntries, removed: ConfigEntries,
                               deleted: ConfigEntries, k1: int, H: Entities, neighbour: ConfigEntries, e: Edge)
    returns (s: State)
    requires CompiledFrom(G, k0, E, created) && CompiledFrom(G, k1, H, neighbour)
    requires UpdatesFromTo(G, k0, E, F, added, removed) && CompiledFrom(G, k0, F, deleted)
    requires EdgesAreLinks(G, E) && EdgesAreLinks(G, F) && EdgesAreLinks(G, H)
    requires Comparable(E, F) && E.sources.Keys <= H.sources.Keys && e in GainOnly(F, E)
    ensures var r := Ref(e.from, ActivateKey(EdgePort(G, e)));
      && ReachableState(s) && |s.intents| == 2
      && (forall i :: 0 <= i < 2 ==> s.intents[i].phase == Idle && s.intents[i].failed == [])
      && r in s.intents[1].need && r !in s.store.installed
  {
    forall r ensures Drift(G, E, F, r) + EntityRefs(G, k1, H)[r] >= 0 {
      OnlyActivationsDriftDown(G, k1, E, F, H, r);
    }
    s := NeighbourAfterDisable(G, k0, E, F, created, added, removed, deleted, k1, H, neighbour);
    ActivateDrift(G, E, F, e);
    ActivationIsNeededOnce(G, k1, H, H, e);
    var r := Ref(e.from, ActivateKey(EdgePort(G, e)));
    assert r in s.store.installed <==> EntityRefs(G, k1, H)[r] + Drift(G, E, F, r) >= 1;
  }
}
