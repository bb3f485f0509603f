/** Telemetry entities, their difference, and the table entries they are counted as. */
module TelemetryEntities {
  import opened Topology
  import opened Tables
  import opened Gathering

  datatype Edge = Edge(from: Name, to: Name)

  const ANY_PORT: int := -1

  datatype SourceConfig = SourceConfig(src: Pattern, dst: Pattern, srcPort: int, dstPort: int, tunneled: bool)

  datatype Entities = Entities(sources: map<Edge, seq<SourceConfig>>, transits: set<Name>, sinks: set<Edge>) {
    predicate IsEmpty() { |sources| == 0 && |transits| == 0 && |sinks| == 0 }
  }

  const NO_ENTITIES := Entities(map[], {}, {})

  // ---- Differences ----

  /** The configs of `a` that do not occur in `b`, in order. */
  function Without(a: seq<SourceConfig>, b: seq<SourceConfig>): seq<SourceConfig> {
    if a == [] then [] else (if a[0] in b then [] else [a[0]]) + Without(a[1..], b)
  }

  predicate DifferentEdge(a: Entities, b: Entities, e: Edge) {
    e in a.sources && (e in b.sources ==> Without(a.sources[e], b.sources[e]) != [])
  }

  /** What `a` has and `b` has not. */
  function Difference(a: Entities, b: Entities): Entities {
    Entities(
      map e | e in a.sources && DifferentEdge(a, b, e) ::
        if e in b.sources then Without(a.sources[e], b.sources[e]) else a.sources[e],
      a.transits - b.transits,
      a.sinks - b.sinks)
  }

  method Filter(a: seq<SourceConfig>, b: seq<SourceConfig>) returns (r: seq<SourceConfig>)
    ensures r == Without(a, b)
  {
    r := [];
    for i := 0 to |a|
      invariant r + Without(a[i..], b) == Without(a, b)
    {
      var found := false;
      for j := 0 to |b|
        invariant found <==> a[i] in b[..j]
      {
        if a[i] == b[j] {
          found := true;
        }
      }
      assert b[..|b|] == b && a[i..][1..] == a[i + 1..];
      if !found {
        r := r + [a[i]];
      }
    }
    assert a[|a|..] == [];
  }

  ghost predicate SameUpTo(m: map<Edge, seq<SourceConfig>>, target: map<Edge, seq<SourceConfig>>, done: set<Edge>) {
    && (forall e :: e in m <==> e in target && e in done)
    && (forall e :: e in m ==> m[e] == target[e])
  }

  method ComputeDifferences(oldEntities: Entities, newEntities: Entities) returns (added: Entities, removed: Entities)
    ensures added == Difference(newEntities, oldEntities)
    ensures removed == Difference(oldEntities, newEntities)
  {
    var addedSources, removedSources := CompareSources(oldEntities, newEntities);
    var removedTransits := OnlyIn(oldEntities.transits, newEntities.transits);
    var addedTransits := OnlyIn(newEntities.transits, oldEntities.transits);
    var removedSinks := OnlyIn(oldEntities.sinks, newEntities.sinks);
    var addedSinks := OnlyIn(newEntities.sinks, oldEntities.sinks);
    added := Entities(addedSources, addedTransits, addedSinks);
    removed := Entities(removedSources, removedTransits, removedSinks);
  }

  method CompareSources(oldEntities: Entities, newEntities: Entities)
    returns (added: map<Edge, seq<SourceConfig>>, removed: map<Edge, seq<SourceConfig>>)
    ensures added == Difference(newEntities, oldEntities).sources
    ensures removed == Difference(oldEntities, newEntities).sources
  {
    ghost var toAdd := Difference(newEntities, oldEntities).sources;
    ghost var toRemove := Difference(oldEntities, newEntities).sources;
    added, removed := map[], map[];
    var todo := oldEntities.sources.Keys;
    while todo != {}
      invariant todo <= oldEntities.sources.Keys
      invariant SameUpTo(removed, toRemove, oldEntities.sources.Keys - todo)
      invariant SameUpTo(added, toAdd, oldEntities.sources.Keys - todo)
      decreases todo
    {
      var e :| e in todo;
      todo := todo - {e};
      var oldConfs := oldEntities.sources[e];
      if e !in newEntities.sources {
        removed := removed[e := oldConfs];
      } else {
        var newConfs := newEntities.sources[e];
        var removedConfs := Filter(oldConfs, newConfs);
        var addedConfs := Filter(newConfs, oldConfs);
        if |addedConfs| > 0 {
          added := added[e := addedConfs];
        }
        if |removedConfs| > 0 {
          removed := removed[e := removedConfs];
        }
      }
    }
    todo := newEntities.sources.Keys;
    while todo != {}
      invariant todo <= newEntities.sources.Keys
      invariant SameUpTo(added, toAdd, oldEntities.sources.Keys + (newEntities.sources.Keys - todo))
      decreases todo
    {
      var e :| e in todo;
      todo := todo - {e};
      if e !in oldEntities.sources {
        added := added[e := newEntities.sources[e]];
      }
    }
  }

  method OnlyIn<T(==)>(a: set<T>, b: set<T>) returns (r: set<T>)
    ensures r == a - b
  {
    r := {};
    var todo := a;
    while todo != {}
      invariant todo <= a && r == (a - todo) - b
      decreases todo
    {
      var x :| x in todo;
      todo := todo - {x};
      if x !in b {
        r := r + {x};
      }
    }
  }

  // ---- Counted entries ----

  function EdgePort(G: Graph, e: Edge): int {
    if e.from in G then Port(G[e.from].links, e.to) + 1 else 0
  }

  function SourceRef(device: Name, c: SourceConfig): Ref {
    Ref(device, SourceKey(c.src, c.dst, c.srcPort, c.dstPort, c.tunneled))
  }

  function ConfigRefs(device: Name, configs: seq<SourceConfig>): multiset<Ref> {
    if configs == [] then multiset{} else multiset{SourceRef(device, configs[0])} + ConfigRefs(device, configs[1..])
  }

  ghost function SinkPart(G: Graph): Edge -> multiset<Ref> {
    (e: Edge) => multiset{Ref(e.from, SinkKey(EdgePort(G, e)))}
  }

  ghost function ReportingPart(collectionId: int): Edge -> multiset<Ref> {
    (e: Edge) => multiset{Ref(e.from, ReportingKey(collectionId))}
  }

  ghost function TransitPart(): Name -> multiset<Ref> {
    (n: Name) => multiset{Ref(n, TransitKey)}
  }

  ghost function ActivatePart(G: Graph): Edge -> multiset<Ref> {
    (e: Edge) => multiset{Ref(e.from, ActivateKey(EdgePort(G, e)))}
  }

  ghost function SourcePart(sources: map<Edge, seq<SourceConfig>>): Edge -> multiset<Ref> {
    (e: Edge) => if e in sources then ConfigRefs(e.from, sources[e]) else multiset{}
  }

  ghost function SinkRefs(G: Graph, E: Entities): multiset<Ref> { Gather(E.sinks, SinkPart(G)) }

  ghost function ReportingRefs(collectionId: int, E: Entities): multiset<Ref> {
    Gather(E.sinks, ReportingPart(collectionId))
  }

  ghost function TransitRefs(E: Entities): multiset<Ref> { Gather(E.transits, TransitPart()) }

  ghost function ActivateRefs(G: Graph, E: Entities): multiset<Ref> { Gather(E.sources.Keys, ActivatePart(G)) }

  ghost function SourceRefs(E: Entities): multiset<Ref> { Gather(E.sources.Keys, SourcePart(E.sources)) }

  /** What a configure-source entry needs around it. */
  ghost function SupportRefs(G: Graph, collectionId: int, E: Entities): multiset<Ref> {
    SinkRefs(G, E) + ReportingRefs(collectionId, E) + TransitRefs(E)
  }

  /** Everything an intent with these entities contributes to the counters. */
  ghost function EntityRefs(G: Graph, collectionId: int, E: Entities): multiset<Ref> {
    SupportRefs(G, collectionId, E) + ActivateRefs(G, E) + SourceRefs(E)
  }

  // ---- An update instead of a rebuild ----

  /** For sinks, reporting and transits, adding the difference and removing the other one is the same
      as starting anew. */
  lemma SupportExchange(G: Graph, collectionId: int, E: Entities, F: Entities)
    ensures SinkRefs(G, E) + SinkRefs(G, Difference(F, E)) == SinkRefs(G, F) + SinkRefs(G, Difference(E, F))
    ensures ReportingRefs(collectionId, E) + ReportingRefs(collectionId, Difference(F, E))
         == ReportingRefs(collectionId, F) + ReportingRefs(collectionId, Difference(E, F))
    ensures TransitRefs(E) + TransitRefs(Difference(F, E)) == TransitRefs(F) + TransitRefs(Difference(E, F))
  {
    SetExchange(E.sinks, F.sinks, SinkPart(G));
    SetExchange(E.sinks, F.sinks, ReportingPart(collectionId));
    SetExchange(E.transits, F.transits, TransitPart());
  }

  lemma SetExchange<A(!new)>(a: set<A>, b: set<A>, f: A -> multiset<Ref>)
    ensures Gather(a, f) + Gather(b - a, f) == Gather(b, f) + Gather(a - b, f)
  {
    forall x ensures AgreeAt(a, f, b - a, f, b, f, a - b, f, x) {
    }
    GatherExchange(a, f, b - a, f, b, f, a - b, f);
  }

  /** An edge present before and after. */
  predicate Kept(E: Entities, F: Entities, e: Edge) {
    e in E.sources && e in F.sources
  }

  /** The edge gains configs exactly if it loses some. */
  predicate GainsIffLoses(E: Entities, F: Entities, e: Edge)
    requires Kept(E, F, e)
  {
    Without(F.sources[e], E.sources[e]) != [] <==> Without(E.sources[e], F.sources[e]) != []
  }

  ghost predicate EdgesAreLinks(G: Graph, E: Entities) {
    forall e :: e in E.sources ==> e.from in G && e.to in Neighbours(G, e.from)
  }

  /** The kept edges that gain configs and lose none. */
  function GainOnly(E: Entities, F: Entities): set<Edge> {
    set e | e in E.sources && e in F.sources
      && Without(F.sources[e], E.sources[e]) != [] && Without(E.sources[e], F.sources[e]) == []
  }

  /** The activate-source table after an update from `E` to `F`: an edge that only gains is counted once
      more, one that only loses is counted down although it is still in use. */
  lemma ActivateEquation(G: Graph, E: Entities, F: Entities)
    ensures ActivateRefs(G, E) + (ActivateRefs(G, Difference(F, E)) + Gather(GainOnly(F, E), ActivatePart(G)))
         == ActivateRefs(G, F) + (ActivateRefs(G, Difference(E, F)) + Gather(GainOnly(E, F), ActivatePart(G)))
  {
    var f := ActivatePart(G);
    var a, b, lost := E.sources.Keys, Difference(F, E).sources.Keys, GainOnly(F, E);
    var c, d, gained := F.sources.Keys, Difference(E, F).sources.Keys, GainOnly(E, F);
    forall e ensures AgreeAt(a, f, b + lost, f, c, f, d + gained, f, e) {
    }
    GatherExchange(a, f, b + lost, f, c, f, d + gained, f);
    GatherUnion(b, lost, f);
    GatherUnion(d, gained, f);
  }

  /** So it is updated correctly exactly when every kept edge gains configs if and only if it loses some. */
  lemma ActivateExchange(G: Graph, E: Entities, F: Entities)
    requires EdgesAreLinks(G, E) && EdgesAreLinks(G, F)
    ensures ActivateRefs(G, E) + ActivateRefs(G, Difference(F, E))
      == ActivateRefs(G, F) + ActivateRefs(G, Difference(E, F))
      <==> forall e :: Kept(E, F, e) ==> GainsIffLoses(E, F, e)
  {
    if forall e :: Kept(E, F, e) ==> GainsIffLoses(E, F, e) {
      NothingGainsOnly(E, F);
      ActivateSame(G, E, F);
    } else {
      var e :| Kept(E, F, e) && !GainsIffLoses(E, F, e);
      ActivateDiffers(G, E, F, e);
    }
  }

  lemma NothingGainsOnly(E: Entities, F: Entities)
    requires forall e :: Kept(E, F, e) ==> GainsIffLoses(E, F, e)
    ensures GainOnly(E, F) == {} && GainOnly(F, E) == {}
  {
    forall e ensures e !in GainOnly(E, F) && e !in GainOnly(F, E) {
      assert Kept(E, F, e) ==> GainsIffLoses(E, F, e);
    }
  }

  lemma ActivateSame(G: Graph, E: Entities, F: Entities)
    requires GainOnly(E, F) == {} && GainOnly(F, E) == {}
    ensures ActivateRefs(G, E) + ActivateRefs(G, Difference(F, E))
      == ActivateRefs(G, F) + ActivateRefs(G, Difference(E, F))
  {
    ActivateEquation(G, E, F);
    var none := Gather({}, ActivatePart(G));
    assert ActivateRefs(G, Difference(F, E)) + none == ActivateRefs(G, Difference(F, E));
    assert ActivateRefs(G, Difference(E, F)) + none == ActivateRefs(G, Difference(E, F));
  }

  lemma ActivateDiffers(G: Graph, E: Entities, F: Entities, e: Edge)
    requires EdgesAreLinks(G, E) && EdgesAreLinks(G, F) && Kept(E, F, e) && !GainsIffLoses(E, F, e)
    ensures ActivateRefs(G, E) + ActivateRefs(G, Difference(F, E))
      != ActivateRefs(G, F) + ActivateRefs(G, Difference(E, F))
  {
    var f, r := ActivatePart(G), Ref(e.from, ActivateKey(EdgePort(G, e)));
    ActivateEquation(G, E, F);
    ActivateCount(G, E, F, GainOnly(E, F), e);
    ActivateCount(G, E, F, GainOnly(F, E), e);
    DriftBreaksExchange(ActivateRefs(G, E), ActivateRefs(G, Difference(F, E)), Gather(GainOnly(F, E), f),
                        ActivateRefs(G, F), ActivateRefs(G, Difference(E, F)), Gather(GainOnly(E, F), f), r);
  }

  lemma DriftBreaksExchange(a: multiset<Ref>, b: multiset<Ref>, x: multiset<Ref>,
                            c: multiset<Ref>, d: multiset<Ref>, y: multiset<Ref>, r: Ref)
    requires a + (b + x) == c + (d + y) && x[r] != y[r]
    ensures a + b != c + d
  {
    assert (a + (b + x))[r] == a[r] + b[r] + x[r];
    assert (c + (d + y))[r] == c[r] + d[r] + y[r];
    assert (a + b)[r] == a[r] + b[r] && (c + d)[r] == c[r] + d[r];
  }

  lemma ActivateCount(G: Graph, E: Entities, F: Entities, edges: set<Edge>, e: Edge)
    requires EdgesAreLinks(G, E) && EdgesAreLinks(G, F) && (e in E.sources || e in F.sources)
    requires forall x :: x in edges ==> x in E.sources || x in F.sources
    ensures Gather(edges, ActivatePart(G))[Ref(e.from, ActivateKey(EdgePort(G, e)))] == if e in edges then 1 else 0
  {
  }

  // ---- Source configs ----

  lemma {:induction false} ConfigCount(device: Name, configs: seq<SourceConfig>, r: Ref)
    ensures ConfigRefs(device, configs)[r]
      == match r.key
         case SourceKey(src, dst, srcPort, dstPort, tunneled) =>
           (if r.device == device then multiset(configs)[SourceConfig(src, dst, srcPort, dstPort, tunneled)] else 0)
         case _ => 0
  {
    if configs == [] {
    } else {
      ConfigCount(device, configs[1..], r);
      assert configs == [configs[0]] + configs[1..];
    }
  }

  lemma {:induction false} WithoutCount(a: seq<SourceConfig>, b: seq<SourceConfig>, c: SourceConfig)
    ensures multiset(Without(a, b))[c] == if c in b then 0 else multiset(a)[c]
  {
    if a == [] {
    } else {
      WithoutCount(a[1..], b, c);
      assert a == [a[0]] + a[1..];
    }
  }

  /** How often a config is listed at an edge. */
  function Times(E: Entities, e: Edge, c: SourceConfig): nat {
    if e in E.sources then multiset(E.sources[e])[c] else 0
  }

  /** The differences are exactly what is new and what is gone. Nothing that is added was there, and nothing
      that is removed is still there; without what is removed, and with what is added, the old transits and
      sinks are the new ones. A config is added, as often as it is listed now, exactly if it was not listed
      at its edge before. An edge is added if it is new or has a new config. */
  lemma DifferenceIsExact(E: Entities, F: Entities, e: Edge, c: SourceConfig)
    ensures var added, removed := Difference(F, E), Difference(E, F);
      && added.transits !! E.transits && removed.transits !! F.transits && removed.transits <= E.transits
      && (E.transits - removed.transits) + added.transits == F.transits
      && added.sinks !! E.sinks && removed.sinks !! F.sinks && removed.sinks <= E.sinks
      && (E.sinks - removed.sinks) + added.sinks == F.sinks
    ensures Times(Difference(F, E), e, c) == if Times(E, e, c) > 0 then 0 else Times(F, e, c)
    ensures Times(Difference(E, F), e, c) == if Times(F, e, c) > 0 then 0 else Times(E, e, c)
    ensures e in Difference(F, E).sources <==>
      e in F.sources && (e !in E.sources || exists d :: Times(F, e, d) > 0 && Times(E, e, d) == 0)
    ensures e in Difference(E, F).sources <==>
      e in E.sources && (e !in F.sources || exists d :: Times(E, e, d) > 0 && Times(F, e, d) == 0)
  {
    SourcesAreExact(E, F, e, c);
    SourcesAreExact(F, E, e, c);
  }

  lemma SourcesAreExact(E: Entities, F: Entities, e: Edge, c: SourceConfig)
    ensures Times(Difference(F, E), e, c) == if Times(E, e, c) > 0 then 0 else Times(F, e, c)
    ensures e in Difference(F, E).sources <==>
      e in F.sources && (e !in E.sources || exists d :: Times(F, e, d) > 0 && Times(E, e, d) == 0)
  {
    if e in F.sources && e in E.sources {
      var news := Without(F.sources[e], E.sources[e]);
      WithoutCount(F.sources[e], E.sources[e], c);
      if news != [] {
        WithoutCount(F.sources[e], E.sources[e], news[0]);
        assert Times(F, e, news[0]) > 0 && Times(E, e, news[0]) == 0;
      } else if d :| Times(F, e, d) > 0 && Times(E, e, d) == 0 {
        WithoutCount(F.sources[e], E.sources[e], d);
        assert false;
      }
    }
  }

  /** A config that a kept edge has before and after is listed equally often. Lists without duplicates
      are a special case. */
  predicate SameMultiplicity(E: Entities, F: Entities, e: Edge, c: SourceConfig)
    requires Kept(E, F, e)
  {
    c in E.sources[e] && c in F.sources[e] ==> multiset(E.sources[e])[c] == multiset(F.sources[e])[c]
  }

  ghost predicate Comparable(E: Entities, F: Entities) {
    forall e, c :: Kept(E, F, e) ==> SameMultiplicity(E, F, e, c)
  }

  ghost predicate DuplicateFree(E: Entities) {
    forall e, c :: e in E.sources ==> multiset(E.sources[e])[c] <= 1
  }

  lemma DuplicateFreeIsComparable(E: Entities, F: Entities)
    requires DuplicateFree(E) && DuplicateFree(F)
    ensures Comparable(E, F)
  {
  }

  /** The configs of one edge are exchanged correctly exactly when the lists are comparable. */
  lemma EdgeExchange(E: Entities, F: Entities, e: Edge)
    requires Kept(E, F, e)
    ensures var before, after := E.sources[e], F.sources[e];
      multiset(before) + multiset(Without(after, before)) == multiset(after) + multiset(Without(before, after))
      <==> forall c :: SameMultiplicity(E, F, e, c)
  {
    var before, after := E.sources[e], F.sources[e];
    var left := multiset(before) + multiset(Without(after, before));
    var right := multiset(after) + multiset(Without(before, after));
    forall c ensures left[c] == right[c] <==> SameMultiplicity(E, F, e, c) {
      WithoutCount(after, before, c);
      WithoutCount(before, after, c);
    }
    if forall c :: SameMultiplicity(E, F, e, c) {
      assert left == right;
    } else {
      var c :| !SameMultiplicity(E, F, e, c);
      assert left[c] != right[c];
    }
  }

  /** The configs of `a` that occur in `b`. */
  function Common(a: seq<SourceConfig>, b: seq<SourceConfig>): seq<SourceConfig> {
    if a == [] then [] else (if a[0] in b then [a[0]] else []) + Common(a[1..], b)
  }

  lemma {:induction false} WithoutAndCommon(device: Name, a: seq<SourceConfig>, b: seq<SourceConfig>)
    ensures ConfigRefs(device, a) == ConfigRefs(device, Without(a, b)) + ConfigRefs(device, Common(a, b))
  {
    if a == [] {
    } else {
      WithoutAndCommon(device, a[1..], b);
      var head, rest := multiset{SourceRef(device, a[0])}, ConfigRefs(device, Without(a[1..], b));
      if a[0] in b {
        assert Common(a, b)[1..] == Common(a[1..], b) && Without(a, b) == Without(a[1..], b);
        assert ConfigRefs(device, Common(a, b)) == head + ConfigRefs(device, Common(a[1..], b));
      } else {
        assert Without(a, b)[1..] == Without(a[1..], b) && Common(a, b) == Common(a[1..], b);
        assert ConfigRefs(device, Without(a, b)) == head + rest;
      }
      HeadEitherWay(head, rest, ConfigRefs(device, Common(a[1..], b)));
    }
  }

  lemma HeadEitherWay(h: multiset<Ref>, w: multiset<Ref>, c: multiset<Ref>)
    ensures h + (w + c) == (h + w) + c && h + (w + c) == w + (h + c)
  {
  }

  ghost function CommonPart(E: Entities, F: Entities): Edge -> multiset<Ref> {
    (e: Edge) => if Kept(E, F, e) then ConfigRefs(e.from, Common(E.sources[e], F.sources[e])) else multiset{}
  }

  /** The configs that kept edges have before and after, as often as `E` lists them: for each device and
      config the sum over the kept edges of the device. */
  ghost function CommonRefs(E: Entities, F: Entities): multiset<Ref> {
    Gather(E.sources.Keys * F.sources.Keys, CommonPart(E, F))
  }

  /** The sources of `E` are those that `F` has not and the common ones. */
  lemma SplitSources(E: Entities, F: Entities)
    ensures SourceRefs(E) == SourceRefs(Difference(E, F)) + CommonRefs(E, F)
  {
    var R, none := Difference(E, F), SourcePart(map[]);
    forall e ensures AgreeAt(E.sources.Keys, SourcePart(E.sources), {}, none,
                             R.sources.Keys, SourcePart(R.sources),
                             E.sources.Keys * F.sources.Keys, CommonPart(E, F), e)
    {
      if Kept(E, F, e) {
        WithoutAndCommon(e.from, E.sources[e], F.sources[e]);
      }
    }
    GatherExchange(E.sources.Keys, SourcePart(E.sources), {}, none,
                   R.sources.Keys, SourcePart(R.sources), E.sources.Keys * F.sources.Keys, CommonPart(E, F));
  }

  /** The configure-source table is updated correctly exactly when on each device the kept edges together
      list each common config as often before as after. */
  lemma SourceExchange(E: Entities, F: Entities)
    ensures SourceRefs(E) + SourceRefs(Difference(F, E)) == SourceRefs(F) + SourceRefs(Difference(E, F))
      <==> CommonRefs(E, F) == CommonRefs(F, E)
  {
    SplitSources(E, F);
    SplitSources(F, E);
    CrossSum(SourceRefs(Difference(E, F)), CommonRefs(E, F), SourceRefs(Difference(F, E)), CommonRefs(F, E));
  }

  lemma CrossSum(r: multiset<Ref>, x: multiset<Ref>, d: multiset<Ref>, y: multiset<Ref>)
    ensures (r + x) + d == (d + y) + r <==> x == y
  {
    if (r + x) + d == (d + y) + r {
      forall k ensures x[k] == y[k] {
        assert ((r + x) + d)[k] == r[k] + x[k] + d[k] && ((d + y) + r)[k] == d[k] + y[k] + r[k];
      }
    }
  }

  /** In particular if every kept list is comparable. */
  lemma ComparableHasSameCommon(E: Entities, F: Entities)
    requires Comparable(E, F)
    ensures CommonRefs(E, F) == CommonRefs(F, E)
  {
    var kept := E.sources.Keys * F.sources.Keys;
    assert F.sources.Keys * E.sources.Keys == kept;
    forall e | e in kept ensures CommonPart(E, F)(e) == CommonPart(F, E)(e) {
      assert Kept(E, F, e);
      SameCommonAt(E, F, e);
    }
    GatherSame(kept, CommonPart(E, F), CommonPart(F, E));
  }

  lemma SameCommonAt(E: Entities, F: Entities, e: Edge)
    requires Kept(E, F, e) && forall c :: SameMultiplicity(E, F, e, c)
    ensures CommonPart(E, F)(e) == CommonPart(F, E)(e)
  {
    var a, b := E.sources[e], F.sources[e];
    forall c | c in a && c in b ensures multiset(a)[c] == multiset(b)[c] {
      assert SameMultiplicity(E, F, e, c);
    }
    SameCommon(e.from, a, b);
  }

  lemma SameCommon(device: Name, a: seq<SourceConfig>, b: seq<SourceConfig>)
    requires forall c :: c in a && c in b ==> multiset(a)[c] == multiset(b)[c]
    ensures ConfigRefs(device, Common(a, b)) == ConfigRefs(device, Common(b, a))
  {
    forall r: Ref ensures ConfigRefs(device, Common(a, b))[r] == ConfigRefs(device, Common(b, a))[r] {
      ConfigCount(device, Common(a, b), r);
      ConfigCount(device, Common(b, a), r);
      if r.key.SourceKey? {
        var c := SourceConfig(r.key.src, r.key.dst, r.key.srcPort, r.key.dstPort, r.key.tunneled);
        CommonCount(a, b, c);
        CommonCount(b, a, c);
      }
    }
  }

  lemma {:induction false} CommonCount(a: seq<SourceConfig>, b: seq<SourceConfig>, c: SourceConfig)
    ensures multiset(Common(a, b))[c] == if c in b then multiset(a)[c] else 0
  {
    if a == [] {
    } else {
      CommonCount(a[1..], b, c);
      assert a == [a[0]] + a[1..];
    }
  }

  // ---- The whole update ----

  /** What `E` counts beyond what an update to `F` accounts for. */
  ghost function Overcount(G: Graph, E: Entities, F: Entities): multiset<Ref> {
    Gather(GainOnly(E, F), ActivatePart(G)) + CommonRefs(E, F)
  }

  /** By how much the count of `r` is off after an update from `E` to `F`. */
  ghost function Drift(G: Graph, E: Entities, F: Entities, r: Ref): int {
    (Overcount(G, E, F)[r] as int) - Overcount(G, F, E)[r]
  }

  /** Committing the difference takes the contribution of the old entities to that of the new ones plus the
      drift, for every key and every update. */
  lemma UpdateEquation(G: Graph, collectionId: int, E: Entities, F: Entities, r: Ref)
    ensures EntityRefs(G, collectionId, E)[r] + EntityRefs(G, collectionId, Difference(F, E))[r]
         == EntityRefs(G, collectionId, F)[r] + EntityRefs(G, collectionId, Difference(E, F))[r] + Drift(G, E, F, r)
  {
    var D, R := Difference(F, E), Difference(E, F);
    SupportExchange(G, collectionId, E, F);
    ExchangeAt(SinkRefs(G, E), SinkRefs(G, D), SinkRefs(G, F), SinkRefs(G, R), r);
    ExchangeAt(ReportingRefs(collectionId, E), ReportingRefs(collectionId, D),
               ReportingRefs(collectionId, F), ReportingRefs(collectionId, R), r);
    ExchangeAt(TransitRefs(E), TransitRefs(D), TransitRefs(F), TransitRefs(R), r);
    ActivateEquation(G, E, F);
    ExchangeAt(ActivateRefs(G, E), ActivateRefs(G, D) + Gather(GainOnly(F, E), ActivatePart(G)),
               ActivateRefs(G, F), ActivateRefs(G, R) + Gather(GainOnly(E, F), ActivatePart(G)), r);
    SplitSources(E, F);
    SplitSources(F, E);
  }

  /** Sinks, reporting and transits never drift. */
  lemma DriftKeys(G: Graph, E: Entities, F: Entities, r: Ref)
    ensures r in Overcount(G, E, F) ==> r.key.ActivateKey? || r.key.SourceKey?
    ensures r.key.ActivateKey? ==> Overcount(G, E, F)[r] == Gather(GainOnly(E, F), ActivatePart(G))[r]
    ensures r.key.SourceKey? ==> Overcount(G, E, F)[r] == CommonRefs(E, F)[r]
  {
    GatherMember(GainOnly(E, F), ActivatePart(G), r);
    GatherMember(E.sources.Keys * F.sources.Keys, CommonPart(E, F), r);
    forall e | Kept(E, F, e) ensures r in CommonPart(E, F)(e) ==> r.key.SourceKey? {
      ConfigCount(e.from, Common(E.sources[e], F.sources[e]), r);
    }
  }

  /** The activation of an edge is counted once too often after an update in which the edge only gains
      configs, and once too little after one in which it only loses some. */
  lemma ActivateDrift(G: Graph, E: Entities, F: Entities, e: Edge)
    requires EdgesAreLinks(G, E) && EdgesAreLinks(G, F) && (e in E.sources || e in F.sources)
    ensures Drift(G, E, F, Ref(e.from, ActivateKey(EdgePort(G, e))))
         == if e in GainOnly(E, F) then 1 else if e in GainOnly(F, E) then -1 else 0
  {
    var r := Ref(e.from, ActivateKey(EdgePort(G, e)));
    DriftKeys(G, E, F, r);
    DriftKeys(G, F, E, r);
    ActivateCount(G, E, F, GainOnly(E, F), e);
    ActivateCount(G, E, F, GainOnly(F, E), e);
  }

  /** The condition under which an update refines a rebuild. */
  ghost predicate CleanUpdate(E: Entities, F: Entities) {
    CommonRefs(E, F) == CommonRefs(F, E) && forall e :: Kept(E, F, e) ==> GainsIffLoses(E, F, e)
  }

  lemma CleanHasNoDrift(G: Graph, E: Entities, F: Entities, r: Ref)
    requires CleanUpdate(E, F)
    ensures Drift(G, E, F, r) == 0
  {
    NothingGainsOnly(E, F);
  }

  /** Incremental update refines rebuild: committing the difference takes the contribution of the old
      entities to exactly that of the new ones, in all tables, if and only if the update is clean. */
  lemma UpdateRefinesRebuild(G: Graph, collectionId: int, E: Entities, F: Entities)
    requires EdgesAreLinks(G, E) && EdgesAreLinks(G, F)
    ensures EntityRefs(G, collectionId, E) + EntityRefs(G, collectionId, Difference(F, E))
         == EntityRefs(G, collectionId, F) + EntityRefs(G, collectionId, Difference(E, F))
      <==> CleanUpdate(E, F)
  {
    forall r
      ensures (EntityRefs(G, collectionId, E) + EntityRefs(G, collectionId, Difference(F, E)))[r]
           == (EntityRefs(G, collectionId, F) + EntityRefs(G, collectionId, Difference(E, F)))[r] + Drift(G, E, F, r)
    {
      UpdateEquation(G, collectionId, E, F, r);
    }
    ExactWithoutDrift(G, E, F,
                      EntityRefs(G, collectionId, E) + EntityRefs(G, collectionId, Difference(F, E)),
                      EntityRefs(G, collectionId, F) + EntityRefs(G, collectionId, Difference(E, F)));
  }

  lemma ExactWithoutDrift(G: Graph, E: Entities, F: Entities, left: multiset<Ref>, right: multiset<Ref>)
    requires EdgesAreLinks(G, E) && EdgesAreLinks(G, F)
    requires forall r {:trigger Drift(G, E, F, r)} :: left[r] == right[r] + Drift(G, E, F, r)
    ensures left == right <==> CleanUpdate(E, F)
  {
    if CleanUpdate(E, F) {
      forall r ensures left[r] == right[r] {
        CleanHasNoDrift(G, E, F, r);
      }
    }
    if left == right {
      forall r ensures Drift(G, E, F, r) == 0 {
        assert left[r] == right[r] + Drift(G, E, F, r);
      }
      NoDriftIsClean(G, E, F);
    }
  }

  lemma NoDriftIsClean(G: Graph, E: Entities, F: Entities)
    requires EdgesAreLinks(G, E) && EdgesAreLinks(G, F) && forall r :: Drift(G, E, F, r) == 0
    ensures CleanUpdate(E, F)
  {
    forall r ensures CommonRefs(E, F)[r] == CommonRefs(F, E)[r] {
      assert Drift(G, E, F, r) == 0;
      DriftKeys(G, E, F, r);
      DriftKeys(G, F, E, r);
      CommonKeys(E, F, r);
      CommonKeys(F, E, r);
    }
    forall e | Kept(E, F, e) ensures GainsIffLoses(E, F, e) {
      ActivateDrift(G, E, F, e);
      assert Drift(G, E, F, Ref(e.from, ActivateKey(EdgePort(G, e)))) == 0;
    }
  }

  lemma CommonKeys(E: Entities, F: Entities, r: Ref)
    ensures r in CommonRefs(E, F) ==> r.key.SourceKey?
  {
    GatherMember(E.sources.Keys * F.sources.Keys, CommonPart(E, F), r);
    forall e | Kept(E, F, e) ensures r in CommonPart(E, F)(e) ==> r.key.SourceKey? {
      ConfigCount(e.from, Common(E.sources[e], F.sources[e]), r);
    }
  }

  lemma ExchangeAt(a: multiset<Ref>, b: multiset<Ref>, c: multiset<Ref>, d: multiset<Ref>, r: Ref)
    requires a + b == c + d
    ensures a[r] + b[r] == c[r] + d[r]
  {
    assert (a + b)[r] == (c + d)[r];
  }

  /** A kept edge that only gains a config breaks the activate-source table: its ref is counted twice. */
  lemma GainingEdgeIsCountedTwice(G: Graph, E: Entities, F: Entities, e: Edge)
    requires EdgesAreLinks(G, E) && EdgesAreLinks(G, F)
    requires Kept(E, F, e) && Without(F.sources[e], E.sources[e]) != [] && Without(E.sources[e], F.sources[e]) == []
    ensures var r := Ref(e.from, ActivateKey(EdgePort(G, e)));
      && ActivateRefs(G, F)[r] == 1
      && (ActivateRefs(G, E) + ActivateRefs(G, Difference(F, E)) - ActivateRefs(G, Difference(E, F)))[r] == 2
  {
    ActivateCount(G, E, F, E.sources.Keys, e);
    ActivateCount(G, E, F, F.sources.Keys, e);
    ActivateCount(G, E, F, Difference(F, E).sources.Keys, e);
    ActivateCount(G, E, F, Difference(E, F).sources.Keys, e);
  }

  /** Equal entities up to the order of the config lists have no difference. */
  lemma {:induction false} ReorderedHasNoDifference(E: Entities, F: Entities)
    requires E.transits == F.transits && E.sinks == F.sinks && E.sources.Keys == F.sources.Keys
    requires forall e :: e in E.sources ==> multiset(E.sources[e]) == multiset(F.sources[e])
    ensures Difference(E, F).IsEmpty()
  {
    forall e | e in E.sources ensures Without(E.sources[e], F.sources[e]) == [] {
      forall c | c in E.sources[e] ensures c in F.sources[e] {
        assert c in multiset(E.sources[e]);
      }
      NothingLeft(E.sources[e], F.sources[e]);
    }
    assert Difference(E, F).sources.Keys == {};
  }

  lemma {:induction false} NothingLeft(a: seq<SourceConfig>, b: seq<SourceConfig>)
    requires forall c :: c in a ==> c in b
    ensures Without(a, b) == []
  {
    if a == [] {
    } else {
      NothingLeft(a[1..], b);
    }
  }
}
