/** The table entries of telemetry entities. */
module EntryGeneration {
  // What they say, field by field, and exactly when the lookups on the way do not panic.

  import opened Wrappers
  import opened Topology
  import opened BreadthFirst
  import opened DepthFirst
  import opened Trees
  import opened Tables
  import opened Gathering
  import opened TelemetryEntities
  import opened Selection
  import opened Requests
  import opened Updates

  const TELEMETRY_MTU := 1500
  const FULL_TELEMETRY_KEY := 0xFF00

  datatype Collector = Collector(name: Name, port: int)

  // ---- When every lookup succeeds ----

  predicate IsSwitch(G: Graph, n: Name) {
    n in G && G[n].kind.IncSwitch?
  }

  /** The edge leaves a switch through one of its links. */
  predicate EdgeOk(G: Graph, e: Edge) {
    IsSwitch(G, e.from) && e.to in Neighbours(G, e.from)
  }

  /** There is a path to the collector and one back, and the first hop of the former links back. */
  ghost predicate CollectorOk(G: Graph, sink: Name, collector: Name)
    requires Closed(G) && sink in G
  {
    && collector in G && collector != sink
    && Reachable(G, sink, collector) && Reachable(G, collector, sink)
    && (PathEnds(G, sink, collector); sink in Neighbours(G, FirstHop(G, sink, collector).to))
  }

  /** The link through which the path found by the depth-first search leaves `u`. */
  ghost function FirstHop(G: Graph, u: Name, v: Name): (l: Link)
    requires Closed(G) && u in G && u != v && Reachable(G, u, v)
    ensures l.to in G
  {
    PathEnds(G, u, v);
    G[u].links[PortTowards(G, u, v)]
  }

  ghost predicate SinksOk(G: Graph, sinks: set<Edge>, collector: Name)
    requires Closed(G)
  {
    forall e :: e in sinks ==> EdgeOk(G, e) && CollectorOk(G, e.from, collector)
  }

  ghost predicate Generable(G: Graph, E: Entities, collector: Name)
    requires Closed(G)
  {
    && SinksOk(G, E.sinks, collector)
    && (forall e :: e in E.sources ==> EdgeOk(G, e))
  }

  // ---- The entries ----

  ghost function SinkEntryFor(G: Graph, c: Name, e: Edge): ConfigEntry
    requires Closed(G) && EdgeOk(G, e) && CollectorOk(G, e.from, c)
  {
    PathEnds(G, e.from, c);
    ConfigEntry(Ref(e.from, SinkKey(EdgePort(G, e))), SinkEntry(PortTowards(G, e.from, c) + 1))
  }

  /** Reports leave with the addresses of the link towards the collector, and go to the next hop's MAC and
      the address of the collector's link towards the sink. */
  ghost function ReportingEntryFor(G: Graph, c: Collector, collectionId: int, e: Edge): ConfigEntry
    requires Closed(G) && EdgeOk(G, e) && CollectorOk(G, e.from, c.name)
  {
    var out := FirstHop(G, e.from, c.name);
    var back := G[out.to].links[Port(G[out.to].links, e.from)];
    ConfigEntry(Ref(e.from, ReportingKey(collectionId)),
                ReportingEntry(out.mac, out.ipv4, back.mac, FirstHop(G, c.name, e.from).ipv4, c.port))
  }

  ghost function TransitEntryFor(switchIds: map<Name, int>, n: Name): ConfigEntry {
    ConfigEntry(Ref(n, TransitKey), TransitEntry(if n in switchIds then switchIds[n] else 0, TELEMETRY_MTU))
  }

  ghost function ActivateEntryFor(G: Graph, e: Edge): ConfigEntry {
    ConfigEntry(Ref(e.from, ActivateKey(EdgePort(G, e))), ActivateEntry)
  }

  function SourceEntryFor(collectionId: int, device: Name, config: SourceConfig): ConfigEntry {
    ConfigEntry(SourceRef(device, config), SourceEntry(6, 10, 8, FULL_TELEMETRY_KEY, collectionId))
  }

  ghost predicate IsSinkPair(G: Graph, c: Collector, collectionId: int, e: Edge, sink: ConfigEntry,
                             reporting: ConfigEntry)
    requires Closed(G)
  {
    && EdgeOk(G, e) && CollectorOk(G, e.from, c.name)
    && sink == SinkEntryFor(G, c.name, e) && reporting == ReportingEntryFor(G, c, collectionId, e)
  }

  ghost predicate ListsSinks(G: Graph, c: Collector, collectionId: int, order: seq<Edge>, sink: seq<ConfigEntry>,
                             reporting: seq<ConfigEntry>)
    requires Closed(G)
  {
    && |sink| == |order| && |reporting| == |order|
    && forall i :: 0 <= i < |order| ==> IsSinkPair(G, c, collectionId, order[i], sink[i], reporting[i])
  }

  ghost predicate ListsTransits(switchIds: map<Name, int>, order: seq<Name>, transit: seq<ConfigEntry>) {
    |transit| == |order| && forall i :: 0 <= i < |order| ==> transit[i] == TransitEntryFor(switchIds, order[i])
  }

  ghost predicate ListsActivations(G: Graph, order: seq<Edge>, activate: seq<ConfigEntry>) {
    |activate| == |order| && forall i :: 0 <= i < |order| ==> activate[i] == ActivateEntryFor(G, order[i])
  }

  function SourceEntries(collectionId: int, device: Name, configs: seq<SourceConfig>): seq<ConfigEntry> {
    seq(|configs|, k requires 0 <= k < |configs| => SourceEntryFor(collectionId, device, configs[k]))
  }

  ghost function SourceList(sources: map<Edge, seq<SourceConfig>>, collectionId: int, order: seq<Edge>)
    : seq<ConfigEntry>
    requires forall e :: e in order ==> e in sources
  {
    if order == [] then []
    else
      var rest, e := order[..|order| - 1], order[|order| - 1];
      SourceList(sources, collectionId, rest) + SourceEntries(collectionId, e.from, sources[e])
  }

  ghost predicate ListsSources(G: Graph, sources: map<Edge, seq<SourceConfig>>, collectionId: int, order: seq<Edge>,
                               activate: seq<ConfigEntry>, source: seq<ConfigEntry>)
  {
    && Enumerates(order, sources.Keys)
    && ListsActivations(G, order, activate) && source == SourceList(sources, collectionId, order)
  }

  /** `ce` holds exactly the entries of the entities, in the order of some iteration. */
  ghost predicate EntriesOf(G: Graph, switchIds: map<Name, int>, E: Entities, c: Collector, collectionId: int,
                            ce: ConfigEntries)
    requires Closed(G)
  {
    && (exists order :: Enumerates(order, E.sinks) && ListsSinks(G, c, collectionId, order, ce.sink, ce.reporting))
    && (exists order :: Enumerates(order, E.transits) && ListsTransits(switchIds, order, ce.transit))
    && (exists order :: ListsSources(G, E.sources, collectionId, order, ce.activate, ce.source))
  }

  // ---- Their counts ----

  lemma {:induction false} RefsConcat(a: seq<ConfigEntry>, b: seq<ConfigEntry>)
    ensures RefsOf(a + b) == RefsOf(a) + RefsOf(b)
  {
    if a == [] {
      assert [] + b == b;
    } else {
      RefsConcat(a[1..], b);
      HeadAndTail(a, b);
      Associative(multiset{a[0].ref}, RefsOf(a[1..]), RefsOf(b));
    }
  }

  lemma HeadAndTail<T>(a: seq<T>, b: seq<T>)
    requires a != []
    ensures (a + b)[0] == a[0] && (a + b)[1..] == a[1..] + b
  {
  }

  lemma OneRef(x: ConfigEntry)
    ensures RefsOf([x]) == multiset{x.ref}
  {
    assert [x][1..] == [];
  }

  lemma Commutative(a: multiset<Ref>, b: multiset<Ref>)
    ensures a + b == b + a
  {
  }

  lemma Associative(a: multiset<Ref>, b: multiset<Ref>, c: multiset<Ref>)
    ensures a + (b + c) == a + b + c
  {
  }

  /** Entries listed one per item are counted as the items are. */
  lemma {:induction false} ListedRefs<A(!new)>(order: seq<A>, items: set<A>, f: A -> multiset<Ref>,
                                               entries: seq<ConfigEntry>)
    requires Enumerates(order, items) && |entries| == |order|
    requires forall i :: 0 <= i < |order| ==> f(order[i]) == multiset{entries[i].ref}
    ensures RefsOf(entries) == Gather(items, f)
    decreases |order|
  {
    if order == [] {
      assert items == {};
    } else {
      var n := |order| - 1;
      EnumeratesLess(order, items);
      ListedRefs(order[..n], items - {order[n]}, f, entries[..n]);
      GatherStep(items, f, order[n]);
      RefsConcat(entries[..n], [entries[n]]);
      assert entries == entries[..n] + [entries[n]];
      OneRef(entries[n]);
      Commutative(RefsOf(entries[..n]), f(order[n]));
    }
  }

  lemma {:induction false} SourceEntriesRefs(collectionId: int, device: Name, configs: seq<SourceConfig>)
    ensures RefsOf(SourceEntries(collectionId, device, configs)) == ConfigRefs(device, configs)
  {
    if configs == [] {
    } else {
      SourceEntriesRefs(collectionId, device, configs[1..]);
      assert SourceEntries(collectionId, device, configs)[1..] == SourceEntries(collectionId, device, configs[1..]);
    }
  }

  lemma {:induction false} SourceListRefs(sources: map<Edge, seq<SourceConfig>>, collectionId: int, order: seq<Edge>,
                                          edges: set<Edge>)
    requires Enumerates(order, edges) && edges <= sources.Keys
    ensures RefsOf(SourceList(sources, collectionId, order)) == Gather(edges, SourcePart(sources))
    decreases |order|
  {
    if order == [] {
      assert edges == {};
    } else {
      var rest, e := order[..|order| - 1], order[|order| - 1];
      EnumeratesLess(order, edges);
      SourceListRefs(sources, collectionId, rest, edges - {e});
      GatherStep(edges, SourcePart(sources), e);
      SourceEntriesRefs(collectionId, e.from, sources[e]);
      RefsConcat(SourceList(sources, collectionId, rest), SourceEntries(collectionId, e.from, sources[e]));
    }
  }

  lemma SinkRefsListed(G: Graph, c: Collector, collectionId: int, order: seq<Edge>, sinks: set<Edge>,
                       sink: seq<ConfigEntry>, reporting: seq<ConfigEntry>)
    requires Closed(G) && Enumerates(order, sinks) && ListsSinks(G, c, collectionId, order, sink, reporting)
    ensures RefsOf(sink) == Gather(sinks, SinkPart(G))
      && RefsOf(reporting) == Gather(sinks, ReportingPart(collectionId))
  {
    forall i | 0 <= i < |order|
      ensures SinkPart(G)(order[i]) == multiset{sink[i].ref}
        && ReportingPart(collectionId)(order[i]) == multiset{reporting[i].ref}
    {
      assert IsSinkPair(G, c, collectionId, order[i], sink[i], reporting[i]);
    }
    ListedRefs(order, sinks, SinkPart(G), sink);
    ListedRefs(order, sinks, ReportingPart(collectionId), reporting);
  }

  lemma SinksAreCompiled(G: Graph, switchIds: map<Name, int>, E: Entities, c: Collector, collectionId: int,
                         ce: ConfigEntries)
    requires Closed(G) && EntriesOf(G, switchIds, E, c, collectionId, ce)
    ensures RefsOf(ce.sink) == SinkRefs(G, E) && RefsOf(ce.reporting) == ReportingRefs(collectionId, E)
  {
    var sinks :| Enumerates(sinks, E.sinks) && ListsSinks(G, c, collectionId, sinks, ce.sink, ce.reporting);
    SinkRefsListed(G, c, collectionId, sinks, E.sinks, ce.sink, ce.reporting);
  }

  lemma TransitsAreCompiled(switchIds: map<Name, int>, order: seq<Name>, E: Entities, transit: seq<ConfigEntry>)
    requires Enumerates(order, E.transits) && ListsTransits(switchIds, order, transit)
    ensures RefsOf(transit) == TransitRefs(E)
  {
    ListedRefs(order, E.transits, TransitPart(), transit);
  }

  lemma SourcesAreCompiled(G: Graph, E: Entities, collectionId: int, order: seq<Edge>,
                           activate: seq<ConfigEntry>, source: seq<ConfigEntry>)
    requires Closed(G) && ListsSources(G, E.sources, collectionId, order, activate, source)
    ensures RefsOf(activate) == ActivateRefs(G, E) && RefsOf(source) == SourceRefs(E)
  {
    ListedRefs(order, E.sources.Keys, ActivatePart(G), activate);
    SourceListRefs(E.sources, collectionId, order, E.sources.Keys);
  }

  /** Whatever the order, the entries are counted as the entities are. */
  lemma EntriesAreCompiled(G: Graph, switchIds: map<Name, int>, E: Entities, c: Collector, collectionId: int,
                           ce: ConfigEntries)
    requires Closed(G) && EntriesOf(G, switchIds, E, c, collectionId, ce)
    ensures CompiledFrom(G, collectionId, E, ce)
  {
    SinksAreCompiled(G, switchIds, E, c, collectionId, ce);
    var transits :| Enumerates(transits, E.transits) && ListsTransits(switchIds, transits, ce.transit);
    TransitsAreCompiled(switchIds, transits, E, ce.transit);
    var sources :| ListsSources(G, E.sources, collectionId, sources, ce.activate, ce.source);
    SourcesAreCompiled(G, E, collectionId, sources, ce.activate, ce.source);
  }

  // ---- What the entries say ----

  /** The device after `u` on the path that the depth-first search finds to `v`. */
  ghost function Successor(G: Graph, u: Name, v: Name): (next: Name)
    requires Closed(G) && u in G && u != v && Reachable(G, u, v)
    ensures next in G
  {
    PathEnds(G, u, v);
    var back := ReversedPath(G, u, v);
    back[|back| - 2]
  }

  /** The sink entry matches the port to the neighbour of the edge, and sends reports through the port
      towards the collector. The reporting entry has the addresses of that port, the MAC of the next device's
      link back, the address of the collector's link towards the sink, and the port of the request. */
  ghost predicate SaysSink(G: Graph, c: Collector, collectionId: int, e: Edge, sink: ConfigEntry,
                           reporting: ConfigEntry)
    requires Closed(G)
  {
    && EdgeOk(G, e) && CollectorOk(G, e.from, c.name)
    && var next, last := Successor(G, e.from, c.name), Successor(G, c.name, e.from);
    && sink.ref.device == e.from && sink.ref.key.SinkKey? && FirstPort(G, e.from, e.to, sink.ref.key.egressPort)
    && sink.entry.SinkEntry? && FirstPort(G, e.from, next, sink.entry.reportingPort)
    && reporting.ref.device == e.from && reporting.ref.key == ReportingKey(collectionId)
    && reporting.entry.ReportingEntry?
    && reporting.entry.mac == G[e.from].links[sink.entry.reportingPort - 1].mac
    && reporting.entry.ip == G[e.from].links[sink.entry.reportingPort - 1].ipv4
    && (exists p :: FirstPort(G, next, e.from, p) && G[next].links[p - 1].mac == reporting.entry.collectorMac)
    && (exists p :: FirstPort(G, c.name, last, p) && G[c.name].links[p - 1].ipv4 == reporting.entry.collectorIp)
    && reporting.entry.collectorPort == c.port
  }

  /** A transit device is told its own number and the MTU. */
  predicate SaysTransit(switchIds: map<Name, int>, n: Name, x: ConfigEntry) {
    && x.ref.device == n && x.ref.key.TransitKey? && x.entry.TransitEntry? && x.entry.mtu == 1500
    && (n in switchIds ==> x.entry.switchId == switchIds[n])
    && (n !in switchIds ==> x.entry.switchId == 0)
  }

  /** Telemetry is activated for what enters a source from the neighbour of its edge. */
  predicate SaysActivation(G: Graph, e: Edge, x: ConfigEntry) {
    && x.ref.device == e.from && EdgeOk(G, e) && x.entry.ActivateEntry?
    && x.ref.key.ActivateKey? && FirstPort(G, e.from, e.to, x.ref.key.ingressPort)
  }

  /** The source matches what the config says, and marks it with the collection id. */
  predicate SaysSource(collectionId: int, e: Edge, config: SourceConfig, x: ConfigEntry) {
    && x.ref.device == e.from && x.ref.key.SourceKey?
    && x.ref.key.src == config.src && x.ref.key.dst == config.dst
    && x.ref.key.srcPort == config.srcPort && x.ref.key.dstPort == config.dstPort
    && x.ref.key.tunneled == config.tunneled
    && x.entry.SourceEntry? && x.entry.collectionId == collectionId
    && x.entry.maxHop == 6 && x.entry.hopMetadataLen == 10 && x.entry.insCnt == 8 && x.entry.insMask == 0xFF00
  }

  /** A place in the lists of configs. */
  datatype Spot = Spot(edge: Edge, index: nat)

  function Spots(sources: map<Edge, seq<SourceConfig>>): set<Spot> {
    set e, i: nat | e in sources && i < |sources[e]| :: Spot(e, i)
  }

  /** The source entries say what is meant by the configs at these places. */
  ghost predicate SaysSources(sources: map<Edge, seq<SourceConfig>>, collectionId: int, spots: seq<Spot>,
                              source: seq<ConfigEntry>)
    requires forall spot :: spot in spots ==> spot.edge in sources && spot.index < |sources[spot.edge]|
  {
    && |source| == |spots|
    && forall i :: 0 <= i < |spots| ==>
         SaysSource(collectionId, spots[i].edge, sources[spots[i].edge][spots[i].index], source[i])
  }

  ghost predicate SaysSinks(G: Graph, c: Collector, collectionId: int, sinks: seq<Edge>, sink: seq<ConfigEntry>,
                            reporting: seq<ConfigEntry>)
    requires Closed(G)
  {
    && |sink| == |reporting| == |sinks|
    && forall i :: 0 <= i < |sinks| ==> SaysSink(G, c, collectionId, sinks[i], sink[i], reporting[i])
  }

  /** The lists hold one entry, or pair of entries, for each sink, transit, source edge and config, each of
      which says what is meant. */
  ghost predicate SaysEntities(G: Graph, switchIds: map<Name, int>, E: Entities, c: Collector, collectionId: int,
                               ce: ConfigEntries)
    requires Closed(G)
  {
    && (exists sinks ::
          Enumerates(sinks, E.sinks) && SaysSinks(G, c, collectionId, sinks, ce.sink, ce.reporting))
    && (exists transits ::
          && Enumerates(transits, E.transits) && |ce.transit| == |transits|
          && forall i :: 0 <= i < |transits| ==> SaysTransit(switchIds, transits[i], ce.transit[i]))
    && (exists edges ::
          && Enumerates(edges, E.sources.Keys) && |ce.activate| == |edges|
          && forall i :: 0 <= i < |edges| ==> SaysActivation(G, edges[i], ce.activate[i]))
    && (exists spots ::
          Enumerates(spots, Spots(E.sources)) && SaysSources(E.sources, collectionId, spots, ce.source))
  }

  lemma SinkPairSays(G: Graph, c: Collector, collectionId: int, e: Edge, sink: ConfigEntry, reporting: ConfigEntry)
    requires Closed(G) && IsSinkPair(G, c, collectionId, e, sink, reporting)
    ensures SaysSink(G, c, collectionId, e, sink, reporting)
  {
    var next, last := Successor(G, e.from, c.name), Successor(G, c.name, e.from);
    PathEnds(G, e.from, c.name);
    PathEnds(G, c.name, e.from);
    PortIsFirst(G, e.from, e.to);
    PortIsFirst(G, e.from, next);
    PortIsFirst(G, next, e.from);
    PortIsFirst(G, c.name, last);
  }

  /** The places of the configs in the order in which their entries are listed. */
  ghost function SpotList(sources: map<Edge, seq<SourceConfig>>, order: seq<Edge>): seq<Spot>
    requires forall e :: e in order ==> e in sources
  {
    if order == [] then []
    else
      var rest, e := order[..|order| - 1], order[|order| - 1];
      SpotList(sources, rest) + seq(|sources[e]|, i requires 0 <= i < |sources[e]| => Spot(e, i))
  }

  ghost predicate SpotsUpTo(sources: map<Edge, seq<SourceConfig>>, order: seq<Edge>, spots: seq<Spot>) {
    && (forall i, j :: 0 <= i < j < |spots| ==> spots[i] != spots[j])
    && (forall e, i: nat :: Spot(e, i) in spots <==> e in order && e in sources && i < |sources[e]|)
  }

  lemma {:induction false} SourceListSays(sources: map<Edge, seq<SourceConfig>>, collectionId: int, order: seq<Edge>)
    requires forall e :: e in order ==> e in sources
    requires forall i, j :: 0 <= i < j < |order| ==> order[i] != order[j]
    ensures var spots, entries := SpotList(sources, order), SourceList(sources, collectionId, order);
      && SpotsUpTo(sources, order, spots)
      && (forall spot :: spot in spots ==> spot.edge in sources && spot.index < |sources[spot.edge]|)
      && SaysSources(sources, collectionId, spots, entries)
    decreases |order|
  {
    if order == [] {
    } else {
      var rest, e := order[..|order| - 1], order[|order| - 1];
      SourceListSays(sources, collectionId, rest);
      var before := SpotList(sources, rest);
      var here := seq(|sources[e]|, i requires 0 <= i < |sources[e]| => Spot(e, i));
      assert order == rest + [e];
      MoreSpots(sources, rest, e, before, here);
    }
  }

  lemma MoreSpots(sources: map<Edge, seq<SourceConfig>>, rest: seq<Edge>, e: Edge, before: seq<Spot>,
                  here: seq<Spot>)
    requires SpotsUpTo(sources, rest, before) && e in sources && e !in rest
    requires |here| == |sources[e]| && forall i :: 0 <= i < |here| ==> here[i] == Spot(e, i)
    ensures SpotsUpTo(sources, rest + [e], before + here)
  {
    var spots := before + here;
    forall d, i: nat ensures Spot(d, i) in spots <==> d in rest + [e] && d in sources && i < |sources[d]| {
      if d == e && i < |sources[e]| {
        assert here[i] == Spot(d, i);
      }
    }
    forall i, j | 0 <= i < j < |spots| ensures spots[i] != spots[j] {
      if i < |before| <= j {
        assert spots[i] == Spot(spots[i].edge, spots[i].index) && spots[i] in before;
      }
    }
  }

  /** What GetEntriesForTelemetryEntities lists says of every entity what is meant. */
  lemma EntriesSayEntities(G: Graph, switchIds: map<Name, int>, E: Entities, c: Collector, collectionId: int,
                           ce: ConfigEntries)
    requires Closed(G) && EntriesOf(G, switchIds, E, c, collectionId, ce) && Generable(G, E, c.name)
    ensures SaysEntities(G, switchIds, E, c, collectionId, ce)
  {
    var sinks :| Enumerates(sinks, E.sinks) && ListsSinks(G, c, collectionId, sinks, ce.sink, ce.reporting);
    forall i | 0 <= i < |sinks| ensures SaysSink(G, c, collectionId, sinks[i], ce.sink[i], ce.reporting[i]) {
      SinkPairSays(G, c, collectionId, sinks[i], ce.sink[i], ce.reporting[i]);
    }
    var transits :| Enumerates(transits, E.transits) && ListsTransits(switchIds, transits, ce.transit);
    assert forall i :: 0 <= i < |transits| ==> SaysTransit(switchIds, transits[i], ce.transit[i]);
    var edges :| ListsSources(G, E.sources, collectionId, edges, ce.activate, ce.source);
    SourcesSay(G, E, collectionId, edges, ce.activate, ce.source);
  }

  lemma SourcesSay(G: Graph, E: Entities, collectionId: int, edges: seq<Edge>, activate: seq<ConfigEntry>,
                   source: seq<ConfigEntry>)
    requires ListsSources(G, E.sources, collectionId, edges, activate, source)
    requires forall e :: e in E.sources ==> EdgeOk(G, e)
    ensures |activate| == |edges| && forall i :: 0 <= i < |edges| ==> SaysActivation(G, edges[i], activate[i])
    ensures exists spots ::
      Enumerates(spots, Spots(E.sources)) && SaysSources(E.sources, collectionId, spots, source)
  {
    forall i | 0 <= i < |edges| ensures SaysActivation(G, edges[i], activate[i]) {
      assert edges[i] in E.sources && activate[i] == ActivateEntryFor(G, edges[i]);
      PortIsFirst(G, edges[i].from, edges[i].to);
    }
    SourceListSays(E.sources, collectionId, edges);
    var spots := SpotList(E.sources, edges);
    forall spot ensures spot in spots <==> spot in Spots(E.sources) {
      assert spot == Spot(spot.edge, spot.index);
    }
    assert Enumerates(spots, Spots(E.sources));
  }

  lemma ReportingIsKeyed(G: Graph, c: Collector, collectionId: int, sinks: seq<Edge>, sink: seq<ConfigEntry>,
                         reporting: seq<ConfigEntry>, y: ConfigEntry)
    requires Closed(G) && SaysSinks(G, c, collectionId, sinks, sink, reporting) && y in reporting
    ensures y.ref.key == ReportingKey(collectionId)
  {
    var i :| 0 <= i < |reporting| && reporting[i] == y;
    assert SaysSink(G, c, collectionId, sinks[i], sink[i], reporting[i]);
  }

  lemma SourceIsMarked(sources: map<Edge, seq<SourceConfig>>, collectionId: int, spots: seq<Spot>,
                       source: seq<ConfigEntry>, x: ConfigEntry)
    requires forall spot :: spot in spots ==> spot.edge in sources && spot.index < |sources[spot.edge]|
    requires SaysSources(sources, collectionId, spots, source) && x in source
    ensures x.entry.SourceEntry? && x.entry.collectionId == collectionId
  {
    var i :| 0 <= i < |source| && source[i] == x;
  }

  /** Reports find their way: what a source entry marks carries the id under which every reporting entry of
      the same result is keyed. */
  lemma ReportsMatchSources(G: Graph, switchIds: map<Name, int>, E: Entities, c: Collector, collectionId: int,
                            ce: ConfigEntries, x: ConfigEntry, y: ConfigEntry)
    requires Closed(G) && SaysEntities(G, switchIds, E, c, collectionId, ce)
    requires x in ce.source && y in ce.reporting
    ensures x.entry.SourceEntry? && y.ref.key.ReportingKey? && x.entry.collectionId == y.ref.key.collectionId
  {
    var sinks :| Enumerates(sinks, E.sinks) && SaysSinks(G, c, collectionId, sinks, ce.sink, ce.reporting);
    ReportingIsKeyed(G, c, collectionId, sinks, ce.sink, ce.reporting, y);
    var spots :| Enumerates(spots, Spots(E.sources)) && SaysSources(E.sources, collectionId, spots, ce.source);
    SourceIsMarked(E.sources, collectionId, spots, ce.source, x);
  }

  // ---- Generating them ----

  /** The entries of one sink. The result is None where the code panics: the device is not a switch, the
      neighbour is missing, or one of the searches and lookups fails. */
  method GenerateSink(G: Graph, e: Edge, c: Collector, collectionId: int)
    returns (r: Option<(ConfigEntry, ConfigEntry)>)
    requires Closed(G)
    ensures r.Some? <==> EdgeOk(G, e) && CollectorOk(G, e.from, c.name)
    ensures r.Some? ==> IsSinkPair(G, c, collectionId, e, r.value.0, r.value.1)
  {
    if !IsSwitch(G, e.from) {
      return None;
    }
    var portNumber := Port(G[e.from].links, e.to);
    if portNumber == |G[e.from].links| || c.name !in G {
      return None;
    }
    var portToCollector := FindPortLeadingToDevice(G, e.from, c.name);
    if portToCollector.None? {
      return None;
    }
    PathEnds(G, e.from, c.name);
    var link := G[e.from].links[portToCollector.value];
    var links := G[link.to].links;
    if Port(links, e.from) == |links| {
      return None;
    }
    var portToSink := FindPortLeadingToDevice(G, c.name, e.from);
    if portToSink.None? {
      return None;
    }
    PathEnds(G, c.name, e.from);
    var sink := ConfigEntry(Ref(e.from, SinkKey(portNumber + 1)), SinkEntry(portToCollector.value + 1));
    var reporting := ConfigEntry(Ref(e.from, ReportingKey(collectionId)),
      ReportingEntry(link.mac, link.ipv4, links[Port(links, e.from)].mac,
                     G[c.name].links[portToSink.value].ipv4, c.port));
    return Some((sink, reporting));
  }

  method GenerateSinks(G: Graph, sinks: set<Edge>, c: Collector, collectionId: int)
    returns (ok: bool, sink: seq<ConfigEntry>, reporting: seq<ConfigEntry>, ghost order: seq<Edge>)
    requires Closed(G)
    ensures ok <==> SinksOk(G, sinks, c.name)
    ensures ok ==> Enumerates(order, sinks) && ListsSinks(G, c, collectionId, order, sink, reporting)
  {
    sink, reporting, order := [], [], [];
    var todo := sinks;
    while todo != {}
      invariant todo <= sinks && Enumerates(order, sinks - todo)
      invariant ListsSinks(G, c, collectionId, order, sink, reporting)
      decreases todo
    {
      var e :| e in todo;
      var r := GenerateSink(G, e, c, collectionId);
      if r.None? {
        return false, [], [], [];
      }
      EnumeratesMore(order, sinks - todo, e);
      assert sinks - (todo - {e}) == sinks - todo + {e};
      todo := todo - {e};
      sink, reporting, order := sink + [r.value.0], reporting + [r.value.1], order + [e];
    }
    assert sinks - todo == sinks;
    forall e | e in sinks ensures EdgeOk(G, e) && CollectorOk(G, e.from, c.name) {
      assert e in order;
    }
    ok := true;
  }

  method GenerateTransits(switchIds: map<Name, int>, transits: set<Name>) returns (transit: seq<ConfigEntry>)
    ensures exists order :: Enumerates(order, transits) && ListsTransits(switchIds, order, transit)
  {
    transit := [];
    ghost var order: seq<Name> := [];
    var todo := transits;
    while todo != {}
      invariant todo <= transits && Enumerates(order, transits - todo)
      invariant ListsTransits(switchIds, order, transit)
      decreases todo
    {
      var n :| n in todo;
      EnumeratesMore(order, transits - todo, n);
      assert transits - (todo - {n}) == transits - todo + {n};
      todo := todo - {n};
      var entry := TransitEntry(if n in switchIds then switchIds[n] else 0, TELEMETRY_MTU);
      transit := transit + [ConfigEntry(Ref(n, TransitKey), entry)];
      order := order + [n];
    }
    assert transits - todo == transits;
  }

  method GenerateSources(G: Graph, sources: map<Edge, seq<SourceConfig>>, collectionId: int)
    returns (ok: bool, activate: seq<ConfigEntry>, source: seq<ConfigEntry>, ghost order: seq<Edge>)
    ensures ok <==> forall e :: e in sources ==> EdgeOk(G, e)
    ensures ok ==> ListsSources(G, sources, collectionId, order, activate, source)
  {
    activate, source, order := [], [], [];
    var todo := sources.Keys;
    while todo != {}
      invariant todo <= sources.Keys && Enumerates(order, sources.Keys - todo)
      invariant forall i :: 0 <= i < |order| ==> EdgeOk(G, order[i])
      invariant ListsActivations(G, order, activate) && source == SourceList(sources, collectionId, order)
      decreases todo
    {
      var e :| e in todo;
      if !IsSwitch(G, e.from) {
        return false, [], [], [];
      }
      var portToActivate := Port(G[e.from].links, e.to);
      if portToActivate == |G[e.from].links| {
        return false, [], [], [];
      }
      var entries := GenerateConfigs(collectionId, e.from, sources[e]);
      EnumeratesMore(order, sources.Keys - todo, e);
      assert sources.Keys - (todo - {e}) == sources.Keys - todo + {e};
      todo := todo - {e};
      assert (order + [e])[..|order|] == order;
      activate := activate + [ConfigEntry(Ref(e.from, ActivateKey(portToActivate + 1)), ActivateEntry)];
      source, order := source + entries, order + [e];
    }
    assert sources.Keys - todo == sources.Keys;
    forall e | e in sources ensures EdgeOk(G, e) {
      assert e in order;
    }
    ok := true;
  }

  method GenerateConfigs(collectionId: int, device: Name, configs: seq<SourceConfig>)
    returns (entries: seq<ConfigEntry>)
    ensures entries == SourceEntries(collectionId, device, configs)
  {
    entries := [];
    for k := 0 to |configs|
      invariant entries == SourceEntries(collectionId, device, configs)[..k]
    {
      var config := configs[k];
      var key := SourceKey(config.src, config.dst, config.srcPort, config.dstPort, config.tunneled);
      entries := entries + [ConfigEntry(Ref(device, key), SourceEntry(6, 10, 8, FULL_TELEMETRY_KEY, collectionId))];
    }
  }

  /** All entries of the entities, or None where the code panics. */
  method GetEntriesForTelemetryEntities(G: Graph, switchIds: map<Name, int>, E: Entities, c: Collector,
                                        collectionId: int)
    returns (r: Option<ConfigEntries>)
    requires Closed(G)
    ensures r.Some? <==> Generable(G, E, c.name)
    ensures r.Some? ==> EntriesOf(G, switchIds, E, c, collectionId, r.value)
    ensures r.Some? ==> SaysEntities(G, switchIds, E, c, collectionId, r.value)
  {
    var ok, sink, reporting, sinkOrder := GenerateSinks(G, E.sinks, c, collectionId);
    if !ok {
      return None;
    }
    var transit := GenerateTransits(switchIds, E.transits);
    var sourcesOk, activate, source, sourceOrder := GenerateSources(G, E.sources, collectionId);
    if !sourcesOk {
      return None;
    }
    var entries := ConfigEntries(activate, source, transit, sink, reporting);
    EntriesSayEntities(G, switchIds, E, c, collectionId, entries);
    return Some(entries);
  }

  /** In a tree, reports leave through the link that the forwarding code uses towards the collector, with the
      addresses of that link, and are addressed to the link that it uses from the collector to the sink. */
  lemma ReportsFollowForwarding(G: Graph, c: Collector, collectionId: int, e: Edge, sink: ConfigEntry,
                                reporting: ConfigEntry)
    requires IsTree(G) && SaysSink(G, c, collectionId, e, sink, reporting)
    ensures c.name in Tree(G, e.from).parents && e.from in Tree(G, c.name).parents
    ensures FirstPort(G, e.from, NextHop(G, e.from, c.name), sink.entry.reportingPort)
    ensures var out := G[e.from].links[sink.entry.reportingPort - 1];
      reporting.entry.mac == out.mac && reporting.entry.ip == out.ipv4
    ensures exists p ::
      && FirstPort(G, NextHop(G, e.from, c.name), e.from, p)
      && G[NextHop(G, e.from, c.name)].links[p - 1].mac == reporting.entry.collectorMac
    ensures exists p ::
      && FirstPort(G, c.name, NextHop(G, c.name, e.from), p)
      && G[c.name].links[p - 1].ipv4 == reporting.entry.collectorIp
  {
    SuccessorIsNextHop(G, e.from, c.name);
    SuccessorIsNextHop(G, c.name, e.from);
  }

  lemma SuccessorIsNextHop(G: Graph, u: Name, v: Name)
    requires IsTree(G) && u in G && v in G && u != v && Reachable(G, u, v)
    ensures v in Tree(G, u).parents && Successor(G, u, v) == NextHop(G, u, v)
  {
    DfsPathIsBfsPath(G, u, v);
    PathEnds(G, u, v);
    var back := ReversedPath(G, u, v);
    assert Reversed(back)[1] == back[|back| - 2];
  }

  // ---- When no lookup fails ----

  /** The environment that entry generation is meant for. */
  ghost predicate GoodTopology(G: Graph, collector: Name) {
    && Closed(G) && Symmetric(G) && Connected(G)
    && collector in G && !G[collector].kind.IncSwitch?
  }

  lemma SwitchReachesCollector(G: Graph, sink: Name, collector: Name)
    requires GoodTopology(G, collector) && IsSwitch(G, sink)
    ensures CollectorOk(G, sink, collector)
  {
    assert Reachable(G, sink, collector) && Reachable(G, collector, sink);
    PathEnds(G, sink, collector);
  }

  /** In such a topology the entries of any edges between switches and their neighbours can be generated. */
  lemma LinksAreGenerable(G: Graph, E: Entities, collector: Name)
    requires GoodTopology(G, collector)
    ensures Generable(G, E, collector) <==> forall e :: e in E.sources || e in E.sinks ==> EdgeOk(G, e)
  {
    forall e | e in E.sinks && EdgeOk(G, e) ensures CollectorOk(G, e.from, collector) {
      SwitchReachesCollector(G, e.from, collector);
    }
  }

  /** No lookup fails exactly if every misselected pair happens to have a switch before its target. */
  lemma WhenRequestIsGenerable(G: Graph, programs: set<string>, P: set<Pair>, E: Entities, collector: Name)
    requires GoodTopology(G, collector) && EntitiesOfRequest(G, Compatible(G, programs), P, E)
    ensures Generable(G, E, collector) <==>
      forall p :: FoundIn(G, Compatible(G, programs), P, p) && Misselected(G, Compatible(G, programs), p) ==>
        IsSwitch(G, EntitiesOfPair(G, Compatible(G, programs), p).value.sinkEdge.from)
  {
    var C := Compatible(G, programs);
    LinksAreGenerable(G, E, collector);
    EdgesOfRequest(G, C, P, E);
    forall p | FoundIn(G, C, P, p)
      ensures !Misselected(G, C, p) ==> IsSwitch(G, EntitiesOfPair(G, C, p).value.sinkEdge.from)
      ensures EntitiesOfPair(G, C, p).value.sinkEdge in E.sinks
    {
      EdgesOfPair(G, C, p);
    }
  }

  /** In particular a request without compatible targets never panics, nor do its updates and its removal. */
  lemma ProperRequestIsGenerable(G: Graph, programs: set<string>, P: set<Pair>, E: Entities, F: Entities,
                                 collector: Name)
    requires GoodTopology(G, collector) && EntitiesOfRequest(G, Compatible(G, programs), P, E)
    requires forall p :: p in P ==> p.1.device !in Compatible(G, programs)
    ensures Generable(G, E, collector) && Generable(G, Difference(E, F), collector)
  {
    WhenRequestIsGenerable(G, programs, P, E, collector);
    LinksAreGenerable(G, E, collector);
    LinksAreGenerable(G, Difference(E, F), collector);
  }
}
