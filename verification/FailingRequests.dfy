/** Requests and runs that bring about what goes wrong: updates that are not clean, and entries of
    another collector. */
module FailingRequests {
  import opened Topology
  import opened Tables
  import opened Gathering
  import opened TelemetryEntities
  import opened Protocol
  import opened Updates
  import opened SoleUser
  import opened Requests
  import opened EntryGeneration

  // ---- Updates that are not clean ----

  lemma RequestSources(G: Graph, C: set<Name>, P: set<Pair>, E: Entities, e: Edge)
    requires EntitiesOfRequest(G, C, P, E)
    ensures e in E.sources <==> SourceOfPair(G, C, P, e)
    ensures e in E.sources ==> multiset(E.sources[e]) == Gather(P, ConfigPart(G, C, e))
  {
    var inner :| Collects(G, C, P, E.(transits := inner));
    assert e in E.(transits := inner).sources <==> SourceOfPair(G, C, P, e);
  }

  lemma ConfigOfRequest(G: Graph, C: set<Name>, P: set<Pair>, E: Entities, e: Edge, c: SourceConfig)
    requires EntitiesOfRequest(G, C, P, E) && e in E.sources
    ensures c in E.sources[e] <==>
      exists p :: FoundIn(G, C, P, p) && EntitiesOfPair(G, C, p).value.sourceEdge == e
                  && c in EntitiesOfPair(G, C, p).value.configs
  {
    RequestSources(G, C, P, E, e);
    GatherMember(P, ConfigPart(G, C, e), c);
    assert c in E.sources[e] <==> c in multiset(E.sources[e]);
    if p :| p in P && c in ConfigPart(G, C, e)(p) {
      assert FoundIn(G, C, P, p) && c in EntitiesOfPair(G, C, p).value.configs;
    }
    if p :| FoundIn(G, C, P, p) && EntitiesOfPair(G, C, p).value.sourceEdge == e
            && c in EntitiesOfPair(G, C, p).value.configs {
      assert c in ConfigPart(G, C, e)(p);
    }
  }

  /** A request that drops some pairs of the one before: if a dropped pair shares its source edge with one
      that stays, and has a config that no pair has that stays, the edge only loses configs. */
  lemma DroppedPairLoses(G: Graph, C: set<Name>, P: set<Pair>, Q: set<Pair>, E: Entities, F: Entities,
                         dropped: Pair, staying: Pair, c: SourceConfig)
    requires EntitiesOfRequest(G, C, P, E) && EntitiesOfRequest(G, C, Q, F) && Q <= P
    requires FoundIn(G, C, P, dropped) && FoundIn(G, C, Q, staying)
    requires EntitiesOfPair(G, C, dropped).value.sourceEdge == EntitiesOfPair(G, C, staying).value.sourceEdge
    requires c in EntitiesOfPair(G, C, dropped).value.configs
    requires forall q :: FoundIn(G, C, Q, q) ==> c !in EntitiesOfPair(G, C, q).value.configs
    ensures EntitiesOfPair(G, C, dropped).value.sourceEdge in GainOnly(F, E)
  {
    var e := EntitiesOfPair(G, C, dropped).value.sourceEdge;
    assert SourceOfPair(G, C, P, e) && SourceOfPair(G, C, Q, e);
    RequestSources(G, C, P, E, e);
    RequestSources(G, C, Q, F, e);
    forall d | d in F.sources[e] ensures d in E.sources[e] {
      ConfigOfRequest(G, C, Q, F, e, d);
      ConfigOfRequest(G, C, P, E, e, d);
      var q :| FoundIn(G, C, Q, q) && EntitiesOfPair(G, C, q).value.sourceEdge == e
               && d in EntitiesOfPair(G, C, q).value.configs;
      assert FoundIn(G, C, P, q);
    }
    NothingLeft(F.sources[e], E.sources[e]);
    ConfigOfRequest(G, C, P, E, e, c);
    ConfigOfRequest(G, C, Q, F, e, c);
    WithoutCount(E.sources[e], F.sources[e], c);
    assert c in multiset(E.sources[e]);
    assert c in multiset(Without(E.sources[e], F.sources[e]));
  }

  /** The place of an endpoint in the list of a request makes no difference. */
  lemma PlaceIsIrrelevant(G: Graph, C: set<Name>, p: Pair, q: Pair)
    requires q == (p.0, p.1.(index := q.1.index))
    ensures EntitiesOfPair(G, C, q) == EntitiesOfPair(G, C, p)
  {
  }

  lemma GatherTwo<A(!new), R>(p: A, q: A, f: A -> multiset<R>)
    requires p != q
    ensures Gather({p}, f) == f(p) && Gather({p, q}, f) == f(p) + f(q)
  {
    GatherStep({p}, f, p);
    GatherStep({p, q}, f, q);
    assert {p} - {p} == {} && {p, q} - {q} == {p};
    Swap(f(q), f(p));
  }

  lemma Swap<R>(a: multiset<R>, b: multiset<R>)
    ensures a + b == b + a
  {
  }

  /** A request with one target, and then one that lists the target twice: the source config drifts down. */
  lemma RepeatedTargetDrifts(G: Graph, C: set<Name>, p: Pair, q: Pair, E: Entities, F: Entities, c: SourceConfig)
    requires p != q && q == (p.0, p.1.(index := q.1.index))
    requires EntitiesOfPair(G, C, p).Some? && EntitiesOfPair(G, C, p).value.configs == [c]
    requires EntitiesOfRequest(G, C, {p}, E) && EntitiesOfRequest(G, C, {p, q}, F)
    ensures Drift(G, E, F, SourceRef(EntitiesOfPair(G, C, p).value.sourceEdge.from, c)) == -1
  {
    var e := EntitiesOfPair(G, C, p).value.sourceEdge;
    PlaceIsIrrelevant(G, C, p, q);
    assert FoundIn(G, C, {p}, p) && FoundIn(G, C, {p, q}, p);
    forall x ensures (x in E.sources <==> x == e) && (x in F.sources <==> x == e) {
      RequestSources(G, C, {p}, E, x);
      RequestSources(G, C, {p, q}, F, x);
    }
    RequestSources(G, C, {p}, E, e);
    RequestSources(G, C, {p, q}, F, e);
    GatherTwo(p, q, ConfigPart(G, C, e));
    assert multiset(E.sources[e])[c] == 1 && multiset(F.sources[e])[c] == 2;
    SourceDrift(G, E, F, e, c);
  }

  // ---- Entries of another collector ----

  /** Two intents with one collection id and different collectors report through the same key, with
      different entries. */
  lemma CollectorsShareKey(G: Graph, c: Collector, c': Collector, k: int, e: Edge,
                           sink: ConfigEntry, reporting: ConfigEntry, sink': ConfigEntry, reporting': ConfigEntry)
    requires Closed(G) && IsSinkPair(G, c, k, e, sink, reporting) && IsSinkPair(G, c', k, e, sink', reporting')
    requires c.port != c'.port
    ensures reporting.ref == reporting'.ref && reporting.entry != reporting'.entry
  {
  }

  lemma Goes(s: State, e: Event) returns (s': State)
    requires ReachableState(s) && Enabled(s, e)
    ensures s' == Next(s, e) && ReachableState(s')
  {
    NextReachable(s, e);
    s' := Next(s, e);
  }

  /** Two intents, and the first one has configured its entry. */
  lemma FirstConfigures(ref: Ref, a: Entry) returns (s: State)
    ensures ReachableState(s) && |s.intents| == 2 && s.intents[0].phase == Idle && s.intents[1] == FRESH
    ensures s.store.cells == map[ref := Cell(1, a)] && s.store.installed == map[ref := a]
  {
    var s0 := State(Store(map[], map[], map[]), []);
    assert Initial(s0) && Legal(s0, []) && After(s0, []) == s0;
    s := Goes(s0, Join);
    s := Goes(s, Join);
    assert s.intents == [FRESH, FRESH];
    s := Goes(s, Begin(0, [Action(ref, a, true)], multiset{ref}));
    s := Goes(s, Do(0, true));
    s := Goes(s, Finish(0));
  }

  /** The second intent has configured the same key with an entry of its own, and another key. */
  lemma SecondConfigures(ref: Ref, other: Ref, a: Entry, b: Entry) returns (s: State)
    requires ref != other
    ensures ReachableState(s) && |s.intents| == 2 && s.intents[0].phase == Idle && s.intents[1].phase == Idle
    ensures s.intents[1].need == multiset{ref, other} && s.intents[1].failed == []
    ensures s.store.cells == map[ref := Cell(2, a), other := Cell(1, b)]
    ensures s.store.installed == map[ref := a, other := b]
  {
    s := FirstConfigures(ref, a);
    s := Goes(s, Begin(1, [Action(ref, b, true), Action(other, b, true)], multiset{ref, other}));
    s := Goes(s, Do(1, true));
    s := Goes(s, Do(1, true));
    s := Goes(s, Finish(1));
  }

  /** The first intent leaves, and the key keeps its entry although only the second one uses it. */
  lemma FirstEntryStays(ref: Ref, other: Ref, a: Entry, b: Entry) returns (s: State)
    requires ref != other
    ensures ReachableState(s) && |s.intents| == 2 && s.intents[1].phase == Idle
    ensures s.intents[1].need == multiset{ref, other} && s.intents[1].failed == []
    ensures s.store.cells == map[ref := Cell(1, a), other := Cell(1, b)]
    ensures s.store.installed == map[ref := a, other := b]
  {
    s := SecondConfigures(ref, other, a, b);
    s := Goes(s, Begin(0, [Action(ref, a, false)], multiset{}));
    s := Goes(s, Do(0, true));
    s := Goes(s, Finish(0));
  }

  /** A run in which an undo, though it succeeds, changes an entry: the second intent disables, the switch
      refuses its second delete, and undoing the first one installs its own entry. */
  lemma UndoChangesEntry(ref: Ref, other: Ref, a: Entry, b: Entry) returns (s: State, s': State)
    requires ref != other && a != b
    ensures ReachableState(s) && ReachableState(s')
    ensures |s.intents| == |s'.intents| == 2 && s'.intents[1].phase == s.intents[1].phase == Idle
    ensures s'.intents[1].need == s.intents[1].need == multiset{ref, other}
    ensures s'.intents[1].failed == s.intents[1].failed == []
    ensures s.store.installed == map[ref := a, other := b] && s'.store.installed == map[ref := b, other := b]
  {
    s := FirstEntryStays(ref, other, a, b);
    s' := Goes(s, Begin(1, [Action(ref, b, false), Action(other, b, false)], multiset{}));
    s' := Goes(s', Do(1, true));
    s' := Goes(s', Do(1, false));
    s' := Goes(s', Undo(1, true));
    s' := Goes(s', Abort(1));
  }
}
