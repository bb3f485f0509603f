/** The entities of a whole request: what its pairs of a source and a target contribute, whatever the
    order in which the pairs are taken. */
module Requests {
  import opened Wrappers
  import opened Topology
  import opened DepthFirst
  import opened Gathering
  import opened TelemetryEntities
  import opened Selection

  datatype TunneledEntity = TunneledEntity(ip: Pattern, port: Option<int>)

  datatype Details = Raw(port: Option<int>) | Tunneled(entities: seq<TunneledEntity>)

  /** One source or target. Raw entities are listed, and `index` is the place in the list; tunneled ones
      are the values of a map keyed by device, and `index` is 0. */
  datatype Endpoint = Endpoint(index: nat, device: Name, details: Details)

  type Pair = (Endpoint, Endpoint)

  /** Sources and targets are of one kind; the code panics on a mixed request. */
  ghost predicate SameKind(S: set<Endpoint>, T: set<Endpoint>) {
    (forall x :: x in S + T ==> x.details.Raw?) || (forall x :: x in S + T ==> x.details.Tunneled?)
  }

  function PortOrAny(port: Option<int>): int {
    match port
    case None => ANY_PORT
    case Some(p) => p
  }

  // ---- The configs of one pair ----

  function TunneledRow(s: TunneledEntity, targets: seq<TunneledEntity>): seq<SourceConfig> {
    seq(|targets|, j requires 0 <= j < |targets| =>
      SourceConfig(s.ip, targets[j].ip, PortOrAny(s.port), PortOrAny(targets[j].port), true))
  }

  function TunneledConfigs(sources: seq<TunneledEntity>, targets: seq<TunneledEntity>): seq<SourceConfig> {
    if sources == [] then [] else TunneledRow(sources[0], targets) + TunneledConfigs(sources[1..], targets)
  }

  method CreateTunneledTelemetryConfigs(sources: seq<TunneledEntity>, targets: seq<TunneledEntity>)
    returns (res: seq<SourceConfig>)
    ensures res == TunneledConfigs(sources, targets)
  {
    res := [];
    for i := 0 to |sources|
      invariant res + TunneledConfigs(sources[i..], targets) == TunneledConfigs(sources, targets)
    {
      OneMoreRow(sources, targets, i, res);
      res := AddRow(sources[i], targets, res);
    }
    assert sources[|sources|..] == [];
  }

  lemma OneMoreRow(sources: seq<TunneledEntity>, targets: seq<TunneledEntity>, i: nat, res: seq<SourceConfig>)
    requires i < |sources|
    ensures res + TunneledConfigs(sources[i..], targets)
         == (res + TunneledRow(sources[i], targets)) + TunneledConfigs(sources[i + 1..], targets)
  {
    assert sources[i..][1..] == sources[i + 1..];
  }

  /** The inner loop: the configs of one source. */
  method AddRow(source: TunneledEntity, targets: seq<TunneledEntity>, before: seq<SourceConfig>)
    returns (res: seq<SourceConfig>)
    ensures res == before + TunneledRow(source, targets)
  {
    res := before;
    for j := 0 to |targets|
      invariant res == before + TunneledRow(source, targets)[..j]
    {
      var srcPort, dstPort := PortOrAny(source.port), PortOrAny(targets[j].port);
      res := res + [SourceConfig(source.ip, targets[j].ip, srcPort, dstPort, true)];
    }
  }

  /** The address of the first link of `device` to `next`; external devices match any address. */
  function AddressPattern(G: Graph, device: Name, next: Name): Pattern
    requires device in G && (G[device].kind.External? || Port(G[device].links, next) < |G[device].links|)
  {
    if G[device].kind.External? then AnyAddress else Exact(G[device].links[Port(G[device].links, next)].ipv4)
  }

  /** The devices of the pair exist and the target can be reached. */
  ghost predicate Joined(G: Graph, p: Pair) {
    Closed(G) && p.0.device in G && p.1.device in G && Reachable(G, p.0.device, p.1.device)
  }

  /** What the config of a raw pair looks up: the link of the target to the device before it, unless the
      target is external. */
  ghost predicate Resolves(G: Graph, p: Pair)
    requires Joined(G, p) && p.0.device != p.1.device
  {
    EndsHavePorts(G, p);
    var back := ReversedPath(G, p.0.device, p.1.device);
    p.0.details.Raw? && p.1.details.Raw? && !G[p.1.device].kind.External? ==>
      Port(G[p.1.device].links, back[1]) < |G[p.1.device].links|
  }

  /** Source and sink are found on the path. */
  ghost predicate IsChosen(G: Graph, C: set<Name>, p: Pair)
    requires Joined(G, p) && p.0.device != p.1.device
  {
    EndsHavePorts(G, p);
    Choose(ReversedPath(G, p.0.device, p.1.device), C).Found?
  }

  /** The pair can be handled: where source and sink are found, its configs can be made. */
  ghost predicate Placed(G: Graph, C: set<Name>, p: Pair) {
    && Joined(G, p)
    && (p.0.device != p.1.device && IsChosen(G, C, p) ==> Resolves(G, p))
  }

  /** The path runs over links, and its second device is a neighbour of the source. */
  lemma EndsHavePorts(G: Graph, p: Pair)
    requires Joined(G, p) && p.0.device != p.1.device
    ensures var back := ReversedPath(G, p.0.device, p.1.device);
      && |back| >= 2
      && Port(G[p.0.device].links, back[|back| - 2]) < |G[p.0.device].links|
      && (forall k :: 0 <= k < |back| ==> back[k] in G)
      && (forall k :: 0 <= k < |back| - 1 ==> back[k] in Neighbours(G, back[k + 1]))
  {
    var s, t := p.0.device, p.1.device;
    DfsIsCorrect(G, s, t);
    PathEnds(G, s, t);
    var back := ReversedPath(G, s, t);
    var q := Reversed(back);
    forall k | 0 <= k < |back| ensures back[k] in G {
      assert back[k] == q[|back| - 1 - k];
    }
    forall k | 0 <= k < |back| - 1 ensures back[k] in Neighbours(G, back[k + 1]) {
      assert q[|back| - 2 - k + 1] in Neighbours(G, q[|back| - 2 - k]);
    }
  }

  /** Over two-way links the path can be taken both ways, and every pair resolves. */
  lemma PathIsTwoWay(G: Graph, p: Pair)
    requires Joined(G, p) && p.0.device != p.1.device && Symmetric(G)
    ensures Resolves(G, p)
    ensures var back := ReversedPath(G, p.0.device, p.1.device);
      && |back| >= 2 && (forall k :: 0 <= k < |back| ==> back[k] in G)
      && (forall k :: 0 <= k < |back| - 1 ==>
            back[k] in Neighbours(G, back[k + 1]) && back[k + 1] in Neighbours(G, back[k]))
  {
    EndsHavePorts(G, p);
    PathEnds(G, p.0.device, p.1.device);
    var back := ReversedPath(G, p.0.device, p.1.device);
    assert back[1] in Neighbours(G, back[0]);
    PortOfNeighbour(G, back[0], back[1]);
  }

  ghost function PairConfigs(G: Graph, p: Pair): seq<SourceConfig>
    requires Joined(G, p) && p.0.device != p.1.device && Resolves(G, p)
  {
    EndsHavePorts(G, p);
    var back := ReversedPath(G, p.0.device, p.1.device);
    match (p.0.details, p.1.details)
    case (Tunneled(sources), Tunneled(targets)) => TunneledConfigs(sources, targets)
    case (Raw(sp), Raw(tp)) =>
      [SourceConfig(AddressPattern(G, p.0.device, back[|back| - 2]), AddressPattern(G, p.1.device, back[1]),
                    PortOrAny(sp), PortOrAny(tp), false)]
    case _ => []
  }

  // ---- The entities of one pair ----

  datatype PairEntities = PairEntities(sourceEdge: Edge, sinkEdge: Edge, between: set<Name>, configs: seq<SourceConfig>)

  ghost function EntitiesOfPair(G: Graph, C: set<Name>, p: Pair): Option<PairEntities> {
    if !Placed(G, C, p) || p.0.device == p.1.device then None
    else
      EndsHavePorts(G, p);
      var back := ReversedPath(G, p.0.device, p.1.device);
      match Choose(back, C)
      case NotFound => None
      case Found(i, j) =>
        ChoiceInRange(back, C);
        var sourceEdge, sinkEdge := Edge(back[i], back[i + 1]), Edge(back[j], back[j - 1]);
        Some(PairEntities(sourceEdge, sinkEdge, Between(back, C, i, j), PairConfigs(G, p)))
  }

  lemma ChoiceInRange(back: seq<Name>, C: set<Name>)
    requires |back| >= 2
    ensures Choose(back, C).Found? ==> Choose(back, C).i <= |back| - 2 && 1 <= Choose(back, C).j <= |back| - 1
  {
  }

  ghost function ConfigPart(G: Graph, C: set<Name>, e: Edge): Pair -> multiset<SourceConfig> {
    (p: Pair) =>
      var r := EntitiesOfPair(G, C, p);
      if r.Some? && r.value.sourceEdge == e then multiset(r.value.configs) else multiset{}
  }

  ghost predicate FoundIn(G: Graph, C: set<Name>, P: set<Pair>, p: Pair) {
    p in P && EntitiesOfPair(G, C, p).Some?
  }

  ghost predicate BetweenPair(G: Graph, C: set<Name>, P: set<Pair>, n: Name) {
    exists p :: FoundIn(G, C, P, p) && n in EntitiesOfPair(G, C, p).value.between
  }

  ghost predicate SinkOfPair(G: Graph, C: set<Name>, P: set<Pair>, e: Edge) {
    exists p :: FoundIn(G, C, P, p) && e == EntitiesOfPair(G, C, p).value.sinkEdge
  }

  ghost predicate SourceOfPair(G: Graph, C: set<Name>, P: set<Pair>, e: Edge) {
    exists p :: FoundIn(G, C, P, p) && e == EntitiesOfPair(G, C, p).value.sourceEdge
  }

  /** `E` has the source edges, sink edges and inner transits of the pairs `P`, and at each source edge the
      configs of exactly the pairs that use it, in some order. */
  ghost predicate Collects(G: Graph, C: set<Name>, P: set<Pair>, E: Entities) {
    && (forall n {:trigger BetweenPair(G, C, P, n)} :: n in E.transits <==> BetweenPair(G, C, P, n))
    && (forall e {:trigger SinkOfPair(G, C, P, e)} :: e in E.sinks <==> SinkOfPair(G, C, P, e))
    && (forall e {:trigger SourceOfPair(G, C, P, e)} :: e in E.sources <==> SourceOfPair(G, C, P, e))
    && (forall e {:trigger Gather(P, ConfigPart(G, C, e))} :: e in E.sources ==>
          multiset(E.sources[e]) == Gather(P, ConfigPart(G, C, e)))
  }

  function EdgeDevices(E: Entities): set<Name> {
    (set e | e in E.sources :: e.from) + (set e | e in E.sinks :: e.from)
  }

  /** The entities of a request: what its pairs contribute, with sources and sinks configured as transits too. */
  ghost predicate EntitiesOfRequest(G: Graph, C: set<Name>, P: set<Pair>, E: Entities) {
    exists inner :: Collects(G, C, P, E.(transits := inner)) && E.transits == inner + EdgeDevices(E)
  }

  // ---- Taking the pairs one by one ----

  function ConfigsAt(E: Entities, e: Edge): seq<SourceConfig> {
    if e in E.sources then E.sources[e] else []
  }

  method AddPair(G: Graph, C: set<Name>, s: Endpoint, t: Endpoint, E: Entities, ghost P: set<Pair>)
    returns (E': Entities)
    requires Placed(G, C, (s, t)) && (s, t) !in P && Collects(G, C, P, E)
    requires s.details.Raw? <==> t.details.Raw?
    ensures Collects(G, C, P + {(s, t)}, E')
  {
    var p := (s, t);
    var back, choice, transits := FindSourceSinkEdgesAndFillTransit(G, C, s.device, t.device, E.transits);
    if choice == NotFound {
      assert EntitiesOfPair(G, C, p).None?;
      NothingAdded(G, C, P, p, E);
      return E;
    }
    EndsHavePorts(G, p);
    ChoiceInRange(back, C);
    var sinkEdge := Edge(back[choice.j], back[choice.j - 1]);
    var sourceEdge := Edge(back[choice.i], back[choice.i + 1]);
    var configs := ConfigsOfPair(G, s, t, back);
    var sourceConf := ConfigsAt(E, sourceEdge);
    E' := Entities(E.sources[sourceEdge := sourceConf + configs], transits, E.sinks + {sinkEdge});
    assert EntitiesOfPair(G, C, p)
        == Some(PairEntities(sourceEdge, sinkEdge, Between(back, C, choice.i, choice.j), configs));
    PairAdded(G, C, P, p, E, E');
  }

  method ConfigsOfPair(G: Graph, s: Endpoint, t: Endpoint, back: seq<Name>) returns (configs: seq<SourceConfig>)
    requires Joined(G, (s, t)) && s.device != t.device && Resolves(G, (s, t))
    requires back == ReversedPath(G, s.device, t.device)
    requires s.details.Raw? <==> t.details.Raw?
    ensures configs == PairConfigs(G, (s, t))
  {
    EndsHavePorts(G, (s, t));
    if s.details.Tunneled? {
      configs := CreateTunneledTelemetryConfigs(s.details.entities, t.details.entities);
    } else {
      configs := [SourceConfig(AddressPattern(G, s.device, back[|back| - 2]), AddressPattern(G, t.device, back[1]),
                               PortOrAny(s.details.port), PortOrAny(t.details.port), false)];
    }
  }

  lemma NothingAdded(G: Graph, C: set<Name>, P: set<Pair>, p: Pair, E: Entities)
    requires p !in P && Collects(G, C, P, E) && EntitiesOfPair(G, C, p).None?
    ensures Collects(G, C, P + {p}, E)
  {
    var P' := P + {p};
    assert forall q :: FoundIn(G, C, P', q) <==> FoundIn(G, C, P, q);
    assert forall n :: BetweenPair(G, C, P', n) <==> BetweenPair(G, C, P, n);
    assert forall e :: SinkOfPair(G, C, P', e) <==> SinkOfPair(G, C, P, e);
    assert forall e :: SourceOfPair(G, C, P', e) <==> SourceOfPair(G, C, P, e);
    forall e | e in E.sources ensures multiset(E.sources[e]) == Gather(P', ConfigPart(G, C, e)) {
      GatherStep(P', ConfigPart(G, C, e), p);
      assert P' - {p} == P;
    }
  }

  /** An edge used by no pair gathers no configs. */
  lemma {:induction false} UnusedEdgeIsEmpty(G: Graph, C: set<Name>, P: set<Pair>, e: Edge)
    requires !SourceOfPair(G, C, P, e)
    ensures Gather(P, ConfigPart(G, C, e)) == multiset{}
    decreases P
  {
    if P == {} {
    } else {
      var q :| q in P;
      GatherStep(P, ConfigPart(G, C, e), q);
      forall p | FoundIn(G, C, P - {q}, p) ensures EntitiesOfPair(G, C, p).value.sourceEdge != e {
        assert FoundIn(G, C, P, p);
      }
      assert !SourceOfPair(G, C, P - {q}, e);
      assert EntitiesOfPair(G, C, q).Some? ==> FoundIn(G, C, P, q);
      UnusedEdgeIsEmpty(G, C, P - {q}, e);
    }
  }

  lemma PairAdded(G: Graph, C: set<Name>, P: set<Pair>, p: Pair, E: Entities, E': Entities)
    requires p !in P && Collects(G, C, P, E) && EntitiesOfPair(G, C, p).Some?
    requires var r := EntitiesOfPair(G, C, p).value;
      && E'.transits == E.transits + r.between && E'.sinks == E.sinks + {r.sinkEdge}
      && E'.sources == E.sources[r.sourceEdge := ConfigsAt(E, r.sourceEdge) + r.configs]
    ensures Collects(G, C, P + {p}, E')
  {
    var P', r := P + {p}, EntitiesOfPair(G, C, p).value;
    SetsAdded(G, C, P, p, E, E');
    forall e | e in E'.sources ensures multiset(E'.sources[e]) == Gather(P', ConfigPart(G, C, e)) {
      ConfigsAdded(G, C, P, p, E, E', e);
    }
  }

  lemma ConfigsAdded(G: Graph, C: set<Name>, P: set<Pair>, p: Pair, E: Entities, E': Entities, e: Edge)
    requires p !in P && Collects(G, C, P, E) && EntitiesOfPair(G, C, p).Some?
    requires var r := EntitiesOfPair(G, C, p).value;
      E'.sources == E.sources[r.sourceEdge := ConfigsAt(E, r.sourceEdge) + r.configs]
    requires e in E'.sources
    ensures multiset(E'.sources[e]) == Gather(P + {p}, ConfigPart(G, C, e))
  {
    var f := ConfigPart(G, C, e);
    var before := if e in E.sources then E.sources[e] else [];
    if e !in E.sources {
      UnusedEdgeIsEmpty(G, C, P, e);
    }
    assert multiset(before) == Gather(P, f);
    GatherStep(P + {p}, f, p);
    assert P + {p} - {p} == P;
    AppendedConfigs(G, C, p, before, e, E'.sources[e]);
  }

  lemma AppendedConfigs(G: Graph, C: set<Name>, p: Pair, before: seq<SourceConfig>, e: Edge, after: seq<SourceConfig>)
    requires EntitiesOfPair(G, C, p).Some?
    requires var r := EntitiesOfPair(G, C, p).value;
      after == if r.sourceEdge == e then before + r.configs else before
    ensures multiset(after) == ConfigPart(G, C, e)(p) + multiset(before)
  {
  }

  lemma SetsAdded(G: Graph, C: set<Name>, P: set<Pair>, p: Pair, E: Entities, E': Entities)
    requires p !in P && Collects(G, C, P, E) && EntitiesOfPair(G, C, p).Some?
    requires var r := EntitiesOfPair(G, C, p).value;
      && E'.transits == E.transits + r.between && E'.sinks == E.sinks + {r.sinkEdge}
      && E'.sources.Keys == E.sources.Keys + {r.sourceEdge}
    ensures var P' := P + {p};
      && (forall n :: n in E'.transits <==> BetweenPair(G, C, P', n))
      && (forall e :: e in E'.sinks <==> SinkOfPair(G, C, P', e))
      && (forall e :: e in E'.sources <==> SourceOfPair(G, C, P', e))
  {
    var P' := P + {p};
    assert forall q :: FoundIn(G, C, P', q) <==> q == p || FoundIn(G, C, P, q);
    assert FoundIn(G, C, P', p);
    var r := EntitiesOfPair(G, C, p).value;
    assert forall n :: BetweenPair(G, C, P', n) <==> BetweenPair(G, C, P, n) || n in r.between;
    assert forall e :: SinkOfPair(G, C, P', e) <==> SinkOfPair(G, C, P, e) || e == r.sinkEdge;
    assert forall e :: SourceOfPair(G, C, P', e) <==> SourceOfPair(G, C, P, e) || e == r.sourceEdge;
  }

  ghost function PairsOf(S: set<Endpoint>, T: set<Endpoint>): set<Pair> {
    set s, t | s in S && t in T :: (s, t)
  }

  /** All pairs. The order in which sources are taken, and for each source the order of the targets, is
      left open, as it is for map iteration; the order of a list is one of those possible. */
  method FindTelemetryEntitiesForRequest(G: Graph, C: set<Name>, S: set<Endpoint>, T: set<Endpoint>)
    returns (E: Entities)
    requires SameKind(S, T)
    requires forall p :: p in PairsOf(S, T) ==> Placed(G, C, p)
    ensures EntitiesOfRequest(G, C, PairsOf(S, T), E)
  {
    E := NO_ENTITIES;
    ghost var P: set<Pair> := {};
    var todoS := S;
    while todoS != {}
      invariant todoS <= S && P == PairsOf(S - todoS, T) && Collects(G, C, P, E)
      decreases todoS
    {
      var s :| s in todoS;
      E, P := AddTargets(G, C, S, s, T, E, P);
      todoS := todoS - {s};
    }
    assert S - todoS == S;
    assert E.(transits := E.transits) == E;
    E := E.(transits := E.transits + EdgeDevices(E));
  }

  method AddTargets(G: Graph, C: set<Name>, ghost S: set<Endpoint>, s: Endpoint, T: set<Endpoint>, E0: Entities,
                    ghost P0: set<Pair>)
    returns (E: Entities, ghost P: set<Pair>)
    requires SameKind(S, T) && s in S && Collects(G, C, P0, E0)
    requires forall t :: t in T ==> Placed(G, C, (s, t)) && (s, t) !in P0
    ensures P == P0 + PairsOf({s}, T) && Collects(G, C, P, E)
  {
    E, P := E0, P0;
    var todoT := T;
    while todoT != {}
      invariant todoT <= T && P == P0 + PairsOf({s}, T - todoT) && Collects(G, C, P, E)
      decreases todoT
    {
      var t :| t in todoT;
      todoT := todoT - {t};
      E := AddPair(G, C, s, t, E, P);
      P := P + {(s, t)};
    }
    assert T - todoT == T;
  }

  // ---- Consequences ----

  /** The result does not depend on the order: two results for the same pairs have no difference in
      either direction, so configuring again with another order changes nothing. */
  lemma OrderIsIrrelevant(G: Graph, C: set<Name>, P: set<Pair>, E: Entities, F: Entities)
    requires EntitiesOfRequest(G, C, P, E) && EntitiesOfRequest(G, C, P, F)
    ensures Difference(E, F).IsEmpty() && Difference(F, E).IsEmpty()
    ensures forall e :: e in E.sources ==> e in F.sources && multiset(E.sources[e]) == multiset(F.sources[e])
  {
    var innerE :| Collects(G, C, P, E.(transits := innerE)) && E.transits == innerE + EdgeDevices(E);
    var innerF :| Collects(G, C, P, F.(transits := innerF)) && F.transits == innerF + EdgeDevices(F);
    CollectsUnique(G, C, P, E.(transits := innerE), F.(transits := innerF));
    ReorderedHasNoDifference(E, F);
    ReorderedHasNoDifference(F, E);
  }

  lemma CollectsUnique(G: Graph, C: set<Name>, P: set<Pair>, E: Entities, F: Entities)
    requires Collects(G, C, P, E) && Collects(G, C, P, F)
    ensures E.transits == F.transits && E.sinks == F.sinks && E.sources.Keys == F.sources.Keys
    ensures forall e :: e in E.sources ==> e in F.sources && multiset(E.sources[e]) == multiset(F.sources[e])
  {
    forall n ensures n in E.transits <==> n in F.transits {
      assert n in E.transits <==> BetweenPair(G, C, P, n);
    }
    forall e ensures e in E.sinks <==> e in F.sinks {
      assert e in E.sinks <==> SinkOfPair(G, C, P, e);
    }
    forall e ensures e in E.sources <==> e in F.sources {
      assert e in E.sources <==> SourceOfPair(G, C, P, e);
    }
    forall e | e in E.sources ensures multiset(E.sources[e]) == multiset(F.sources[e]) {
      assert multiset(E.sources[e]) == Gather(P, ConfigPart(G, C, e));
    }
  }

  // ---- Which devices are configured ----

  /** The target is compatible and nothing inside the path is. */
  ghost predicate Misselected(G: Graph, C: set<Name>, p: Pair) {
    && Placed(G, C, p) && p.0.device != p.1.device && p.1.device in C
    && forall k :: !InteriorAt(ReversedPath(G, p.0.device, p.1.device), C, k)
  }

  /** The devices of a pair's edges are compatible, except that the sink of a misselected pair is the device
      before the target, whatever it is. The sink edge is a link, and so is the source edge if links go both
      ways. */
  lemma EdgesOfPair(G: Graph, C: set<Name>, p: Pair)
    requires EntitiesOfPair(G, C, p).Some?
    ensures var r := EntitiesOfPair(G, C, p).value;
      && r.sourceEdge.from in C && r.between <= C
      && r.sourceEdge.from in G && r.sourceEdge.to in G && r.sourceEdge.from in Neighbours(G, r.sourceEdge.to)
      && (Symmetric(G) ==> r.sourceEdge.to in Neighbours(G, r.sourceEdge.from))
      && r.sinkEdge.from in G && r.sinkEdge.to in Neighbours(G, r.sinkEdge.from)
      && (!Misselected(G, C, p) ==> r.sinkEdge.from in C)
    ensures |ReversedPath(G, p.0.device, p.1.device)| >= 2
    ensures Misselected(G, C, p) ==>
      EntitiesOfPair(G, C, p).value.sinkEdge.from == ReversedPath(G, p.0.device, p.1.device)[1]
  {
    EndsHavePorts(G, p);
    var back := ReversedPath(G, p.0.device, p.1.device);
    PathEnds(G, p.0.device, p.1.device);
    ChoiceInRange(back, C);
    WhenChosen(back, C);
    var i := Choose(back, C).i;
    if Symmetric(G) {
      PathIsTwoWay(G, p);
    }
    if i == 0 {
      forall k ensures !InteriorAt(back, C, k) {
      }
    } else {
      assert InteriorAt(back, C, i);
    }
  }

  /** A request without compatible targets configures no incompatible device. */
  lemma OnlyCompatibleConfigured(G: Graph, C: set<Name>, P: set<Pair>, E: Entities)
    requires EntitiesOfRequest(G, C, P, E)
    requires forall p :: p in P ==> p.1.device !in C
    ensures E.transits <= C
    ensures forall e :: e in E.sources || e in E.sinks ==> e.from in C
  {
    var inner :| Collects(G, C, P, E.(transits := inner)) && E.transits == inner + EdgeDevices(E);
    var E' := E.(transits := inner);
    forall p | FoundIn(G, C, P, p)
      ensures EntitiesOfPair(G, C, p).value.sourceEdge.from in C && EntitiesOfPair(G, C, p).value.sinkEdge.from in C
      ensures EntitiesOfPair(G, C, p).value.between <= C
    {
      EdgesOfPair(G, C, p);
    }
    forall e | e in E.sources || e in E.sinks ensures e.from in C {
      assert e in E'.sources <==> SourceOfPair(G, C, P, e);
      assert e in E'.sinks <==> SinkOfPair(G, C, P, e);
    }
    forall n | n in inner ensures n in C {
      assert n in E'.transits <==> BetweenPair(G, C, P, n);
    }
  }

  /** All compatible devices inside the path of a found pair are transits, source and sink included. */
  lemma InteriorIsConfigured(G: Graph, C: set<Name>, P: set<Pair>, E: Entities, p: Pair, k: nat)
    requires EntitiesOfRequest(G, C, P, E)
    requires FoundIn(G, C, P, p) && p.1.device !in C
    requires InteriorAt(ReversedPath(G, p.0.device, p.1.device), C, k)
    ensures ReversedPath(G, p.0.device, p.1.device)[k] in E.transits
  {
    var inner :| Collects(G, C, P, E.(transits := inner)) && E.transits == inner + EdgeDevices(E);
    var E' := E.(transits := inner);
    var back := ReversedPath(G, p.0.device, p.1.device);
    EndsHavePorts(G, p);
    PathEnds(G, p.0.device, p.1.device);
    ChoiceInRange(back, C);
    ChoiceIsNearest(back, C);
    var r := EntitiesOfPair(G, C, p).value;
    assert SourceOfPair(G, C, P, r.sourceEdge) && SinkOfPair(G, C, P, r.sinkEdge);
    if back[k] in r.between {
      assert BetweenPair(G, C, P, back[k]);
    }
  }

  /** Over two-way links all edges of a request are links. */
  lemma EdgesOfRequest(G: Graph, C: set<Name>, P: set<Pair>, E: Entities)
    requires EntitiesOfRequest(G, C, P, E) && Closed(G) && Symmetric(G)
    ensures forall e :: e in E.sources ==> e.from in C && e.from in G && e.to in Neighbours(G, e.from)
    ensures forall e :: e in E.sinks ==> e.from in G && e.to in Neighbours(G, e.from)
    ensures forall e :: e in E.sinks <==> SinkOfPair(G, C, P, e)
  {
    var inner :| Collects(G, C, P, E.(transits := inner)) && E.transits == inner + EdgeDevices(E);
    var E' := E.(transits := inner);
    forall p | FoundIn(G, C, P, p)
      ensures var r := EntitiesOfPair(G, C, p).value;
        && r.sourceEdge.from in C
        && r.sourceEdge.from in G && r.sourceEdge.to in Neighbours(G, r.sourceEdge.from)
        && r.sinkEdge.from in G && r.sinkEdge.to in Neighbours(G, r.sinkEdge.from)
    {
      EdgesOfPair(G, C, p);
    }
    forall e ensures e in E.sinks <==> SinkOfPair(G, C, P, e) {
      assert e in E'.sinks <==> SinkOfPair(G, C, P, e);
    }
    forall e ensures e in E.sources <==> SourceOfPair(G, C, P, e) {
      assert e in E'.sources <==> SourceOfPair(G, C, P, e);
    }
  }
}
