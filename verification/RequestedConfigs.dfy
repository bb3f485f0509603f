/** What the pairs of a request ask for. */
module RequestedConfigs {
  // It is said by the devices on the paths and by the fields of the configs, not by how they are computed.

  import opened Wrappers
  import opened Topology
  import opened DepthFirst
  import opened Gathering
  import opened TelemetryEntities
  import opened Selection
  import opened Requests

  // ---- Edges and transits ----

  /** The path of a pair as it is searched, from the receiver back to the sender. */
  ghost function Back(G: Graph, p: Pair): (back: seq<Name>)
    requires Joined(G, p) && p.0.device != p.1.device
    ensures |back| >= 2 && back[0] == p.1.device && back[|back| - 1] == p.0.device
    ensures forall k :: 0 <= k < |back| ==> back[k] in G
  {
    EndsHavePorts(G, p);
    PathEnds(G, p.0.device, p.1.device);
    ReversedPath(G, p.0.device, p.1.device)
  }

  /** Going from the sender, `i` is the first compatible device after it, and it may be the receiver. Going
      from the receiver, `j` is the first compatible device before `i`; before a compatible receiver it is
      the next device, compatible or not. */
  ghost predicate Spans(G: Graph, C: set<Name>, p: Pair, i: nat, j: nat) {
    && Joined(G, p) && p.0.device != p.1.device
    && var back := Back(G, p);
    && i <= |back| - 2 && back[i] in C && (forall k :: i < k <= |back| - 2 ==> back[k] !in C)
    && if i == 0 then j == 1 else 1 <= j < i && back[j] in C && forall k :: 1 <= k < j ==> back[k] !in C
  }

  ghost predicate IsPlacedAt(G: Graph, C: set<Name>, p: Pair, i: nat, j: nat)
    requires Spans(G, C, p, i, j)
  {
    var back := Back(G, p);
    && EntitiesOfPair(G, C, p).Some?
    && var r := EntitiesOfPair(G, C, p).value;
    && r.sourceEdge == Edge(back[i], back[i + 1]) && r.sinkEdge == Edge(back[j], back[j - 1])
    && forall n :: n in r.between <==> exists k :: j < k < i && back[k] in C && back[k] == n
  }

  lemma WhenPaired(G: Graph, C: set<Name>, p: Pair)
    requires Placed(G, C, p)
    ensures EntitiesOfPair(G, C, p).Some? <==> exists i, j :: Spans(G, C, p, i, j)
    ensures forall i, j :: Spans(G, C, p, i, j) ==> IsPlacedAt(G, C, p, i, j)
  {
    if p.0.device != p.1.device {
      var back := Back(G, p);
      ChoiceInRange(back, C);
      var i := Highest(back, C, |back| - 2);
      if Choose(back, C).Found? {
        assert Spans(G, C, p, Choose(back, C).i, Choose(back, C).j);
      }
      forall k, l | Spans(G, C, p, k, l) ensures Choose(back, C) == Found(k, l) {
        assert i == k;
        assert l == Lowest(back, C, 1, i);
      }
    }
  }

  ghost predicate SourceAt(G: Graph, C: set<Name>, p: Pair, e: Edge) {
    exists i: nat, j: nat :: Spans(G, C, p, i, j) && e == Edge(Back(G, p)[i], Back(G, p)[i + 1])
  }

  ghost predicate SinkAt(G: Graph, C: set<Name>, p: Pair, e: Edge) {
    exists i: nat, j: nat :: Spans(G, C, p, i, j) && e == Edge(Back(G, p)[j], Back(G, p)[j - 1])
  }

  predicate IsBetween(C: set<Name>, back: seq<Name>, i: nat, j: nat, k: nat)
    requires i < |back|
  {
    k == i || k == j || (j < k < i && back[k] in C)
  }

  /** The device is the source or the sink of the pair, or a compatible device between them. */
  ghost predicate TransitAt(G: Graph, C: set<Name>, p: Pair, n: Name) {
    exists i: nat, j: nat, k: nat :: Spans(G, C, p, i, j) && IsBetween(C, Back(G, p), i, j, k) && n == Back(G, p)[k]
  }

  /** The edges and transits of a request are exactly those of its pairs: the source is the compatible device
      next to the sender, its edge leads back to the device before it, the sink is the one next to the
      receiver, its edge leads on to the device after it, and the compatible devices from one to the other
      are transits. */
  lemma RequestIsSpanned(G: Graph, C: set<Name>, P: set<Pair>, E: Entities)
    requires EntitiesOfRequest(G, C, P, E) && forall p :: p in P ==> Placed(G, C, p)
    ensures forall e :: e in E.sources <==> exists p :: p in P && SourceAt(G, C, p, e)
    ensures forall e :: e in E.sinks <==> exists p :: p in P && SinkAt(G, C, p, e)
    ensures forall n :: n in E.transits <==> exists p :: p in P && TransitAt(G, C, p, n)
  {
    var inner :| Collects(G, C, P, E.(transits := inner)) && E.transits == inner + EdgeDevices(E);
    var E' := E.(transits := inner);
    forall e ensures e in E.sources <==> exists p :: p in P && SourceAt(G, C, p, e) {
      assert e in E'.sources <==> SourceOfPair(G, C, P, e);
      SourcesAreSpanned(G, C, P, e);
    }
    forall e ensures e in E.sinks <==> exists p :: p in P && SinkAt(G, C, p, e) {
      assert e in E'.sinks <==> SinkOfPair(G, C, P, e);
      SinksAreSpanned(G, C, P, e);
    }
    forall n ensures n in E.transits <==> exists p :: p in P && TransitAt(G, C, p, n) {
      assert n in E'.transits <==> BetweenPair(G, C, P, n);
      TransitsAreSpanned(G, C, P, E, n);
    }
  }

  lemma SourcesAreSpanned(G: Graph, C: set<Name>, P: set<Pair>, e: Edge)
    requires forall p :: p in P ==> Placed(G, C, p)
    ensures SourceOfPair(G, C, P, e) <==> exists p :: p in P && SourceAt(G, C, p, e)
  {
    forall p | p in P
      ensures FoundIn(G, C, P, p) && e == EntitiesOfPair(G, C, p).value.sourceEdge <==> SourceAt(G, C, p, e)
    {
      WhenPaired(G, C, p);
    }
    if SourceOfPair(G, C, P, e) {
      var p :| FoundIn(G, C, P, p) && e == EntitiesOfPair(G, C, p).value.sourceEdge;
      assert SourceAt(G, C, p, e);
    }
  }

  lemma SinksAreSpanned(G: Graph, C: set<Name>, P: set<Pair>, e: Edge)
    requires forall p :: p in P ==> Placed(G, C, p)
    ensures SinkOfPair(G, C, P, e) <==> exists p :: p in P && SinkAt(G, C, p, e)
  {
    forall p | p in P
      ensures FoundIn(G, C, P, p) && e == EntitiesOfPair(G, C, p).value.sinkEdge <==> SinkAt(G, C, p, e)
    {
      WhenPaired(G, C, p);
    }
    if SinkOfPair(G, C, P, e) {
      var p :| FoundIn(G, C, P, p) && e == EntitiesOfPair(G, C, p).value.sinkEdge;
      assert SinkAt(G, C, p, e);
    }
  }

  lemma TransitsAreSpanned(G: Graph, C: set<Name>, P: set<Pair>, E: Entities, n: Name)
    requires forall p :: p in P ==> Placed(G, C, p)
    requires forall e :: e in E.sources <==> exists p :: p in P && SourceAt(G, C, p, e)
    requires forall e :: e in E.sinks <==> exists p :: p in P && SinkAt(G, C, p, e)
    ensures BetweenPair(G, C, P, n) || n in EdgeDevices(E) <==> exists p :: p in P && TransitAt(G, C, p, n)
  {
    if p :| p in P && TransitAt(G, C, p, n) {
      TransitIsSpanned(G, C, p, n);
      if e :| SourceAt(G, C, p, e) && e.from == n {
        assert e in E.sources;
      } else if e :| SinkAt(G, C, p, e) && e.from == n {
        assert e in E.sinks;
      } else {
        assert FoundIn(G, C, P, p);
      }
    }
    if BetweenPair(G, C, P, n) || n in EdgeDevices(E) {
      SpannedIsTransit(G, C, P, E, n);
    }
  }

  lemma SpannedIsTransit(G: Graph, C: set<Name>, P: set<Pair>, E: Entities, n: Name)
    requires BetweenPair(G, C, P, n) || n in EdgeDevices(E)
    requires forall e :: e in E.sources ==> exists p :: p in P && SourceAt(G, C, p, e)
    requires forall e :: e in E.sinks ==> exists p :: p in P && SinkAt(G, C, p, e)
    ensures exists p :: p in P && TransitAt(G, C, p, n)
  {
    if BetweenPair(G, C, P, n) {
      var p :| FoundIn(G, C, P, p) && n in EntitiesOfPair(G, C, p).value.between;
      BetweenIsTransit(G, C, p, n);
    } else if e :| e in E.sources && e.from == n {
      var p :| p in P && SourceAt(G, C, p, e);
      SourceIsTransit(G, C, p, e);
    } else {
      var e :| e in E.sinks && e.from == n;
      var p :| p in P && SinkAt(G, C, p, e);
      SinkIsTransit(G, C, p, e);
    }
  }

  lemma TransitIsSpanned(G: Graph, C: set<Name>, p: Pair, n: Name)
    requires Placed(G, C, p) && TransitAt(G, C, p, n)
    ensures EntitiesOfPair(G, C, p).Some?
    ensures || (exists e :: SourceAt(G, C, p, e) && e.from == n)
            || (exists e :: SinkAt(G, C, p, e) && e.from == n)
            || n in EntitiesOfPair(G, C, p).value.between
  {
    WhenPaired(G, C, p);
    var i: nat, j: nat, k: nat :| Spans(G, C, p, i, j) && IsBetween(C, Back(G, p), i, j, k) && n == Back(G, p)[k];
    if k == i {
      assert SourceAt(G, C, p, Edge(n, Back(G, p)[i + 1]));
    } else if k == j {
      assert SinkAt(G, C, p, Edge(n, Back(G, p)[j - 1]));
    }
  }

  lemma BetweenIsTransit(G: Graph, C: set<Name>, p: Pair, n: Name)
    requires EntitiesOfPair(G, C, p).Some? && n in EntitiesOfPair(G, C, p).value.between
    ensures TransitAt(G, C, p, n)
  {
    WhenPaired(G, C, p);
    var i: nat, j: nat :| Spans(G, C, p, i, j);
    var k :| j < k < i && Back(G, p)[k] in C && Back(G, p)[k] == n;
    assert IsBetween(C, Back(G, p), i, j, k);
  }

  lemma SourceIsTransit(G: Graph, C: set<Name>, p: Pair, e: Edge)
    requires SourceAt(G, C, p, e)
    ensures TransitAt(G, C, p, e.from)
  {
    var i: nat, j: nat :| Spans(G, C, p, i, j) && e == Edge(Back(G, p)[i], Back(G, p)[i + 1]);
    assert IsBetween(C, Back(G, p), i, j, i);
  }

  lemma SinkIsTransit(G: Graph, C: set<Name>, p: Pair, e: Edge)
    requires SinkAt(G, C, p, e)
    ensures TransitAt(G, C, p, e.from)
  {
    var i: nat, j: nat :| Spans(G, C, p, i, j) && e == Edge(Back(G, p)[j], Back(G, p)[j - 1]);
    assert IsBetween(C, Back(G, p), i, j, j);
  }

  // ---- Configs ----

  /** The address of the first link of `device` to `next`; external devices match any address. */
  ghost predicate SaysAddress(G: Graph, device: Name, next: Name, pattern: Pattern)
    requires device in G
  {
    if G[device].kind.External? then pattern == AnyAddress
    else
      exists k :: 0 <= k < |G[device].links| && G[device].links[k].to == next
               && (forall l :: 0 <= l < k ==> G[device].links[l].to != next)
               && pattern == Exact(G[device].links[k].ipv4)
  }

  /** The port, or -1 for any. */
  predicate SaysPort(port: Option<int>, n: int) {
    (port.Some? ==> n == port.value) && (port.None? ==> n == -1)
  }

  /** What the config of a raw pair matches: the addresses with which its devices are linked to the path. */
  ghost predicate SaysRaw(G: Graph, p: Pair, config: SourceConfig)
    requires Joined(G, p) && p.0.device != p.1.device && p.0.details.Raw? && p.1.details.Raw?
  {
    var back := Back(G, p);
    && SaysAddress(G, p.0.device, back[|back| - 2], config.src) && SaysAddress(G, p.1.device, back[1], config.dst)
    && SaysPort(p.0.details.port, config.srcPort) && SaysPort(p.1.details.port, config.dstPort)
    && !config.tunneled
  }

  /** What the config of a tunneled source and target matches. */
  predicate SaysTunneled(s: TunneledEntity, t: TunneledEntity, config: SourceConfig) {
    && config.src == s.ip && config.dst == t.ip
    && SaysPort(s.port, config.srcPort) && SaysPort(t.port, config.dstPort)
    && config.tunneled
  }

  function Listed(details: Details): nat {
    match details
    case Raw(_) => 1
    case Tunneled(entities) => |entities|
  }

  /** The `a`-th source and the `b`-th target of the pair ask for this config. */
  ghost predicate Asks(G: Graph, p: Pair, a: nat, b: nat, config: SourceConfig)
    requires Joined(G, p) && p.0.device != p.1.device
  {
    if p.0.details.Raw? then p.1.details.Raw? && a == 0 && b == 0 && SaysRaw(G, p, config)
    else
      && p.1.details.Tunneled? && a < |p.0.details.entities| && b < |p.1.details.entities|
      && SaysTunneled(p.0.details.entities[a], p.1.details.entities[b], config)
  }

  datatype Wish = Wish(pair: Pair, a: nat, b: nat)

  ghost function WishesOf(G: Graph, p: Pair, config: SourceConfig): set<Wish>
    requires Joined(G, p) && p.0.device != p.1.device
  {
    set a: nat, b: nat | a < Listed(p.0.details) && b < Listed(p.1.details) && Asks(G, p, a, b, config) :: Wish(p, a, b)
  }

  ghost function Chosen(P: set<Pair>, asks: Wish -> bool): set<Wish> {
    set p, a: nat, b: nat | p in P && a < Listed(p.0.details) && b < Listed(p.1.details) && asks(Wish(p, a, b))
      :: Wish(p, a, b)
  }

  lemma ChosenStep(P: set<Pair>, p: Pair, asks: Wish -> bool)
    requires p in P
    ensures Chosen(P, asks) == Chosen(P - {p}, asks) + Chosen({p}, asks)
    ensures |Chosen(P, asks)| == |Chosen(P - {p}, asks)| + |Chosen({p}, asks)|
  {
    assert Chosen(P - {p}, asks) !! Chosen({p}, asks);
    assert Chosen(P, asks) == Chosen(P - {p}, asks) + Chosen({p}, asks);
  }

  ghost function AsksAt(G: Graph, C: set<Name>, e: Edge, config: SourceConfig): Wish -> bool {
    (w: Wish) => SourceAt(G, C, w.pair, e) && Asks(G, w.pair, w.a, w.b, config)
  }

  /** The places of the request that ask for this config at this edge. */
  ghost function Wishes(G: Graph, C: set<Name>, P: set<Pair>, e: Edge, config: SourceConfig): set<Wish> {
    Chosen(P, AsksAt(G, C, e, config))
  }

  lemma {:induction false} RowsConcat(sources: seq<TunneledEntity>, s: TunneledEntity, targets: seq<TunneledEntity>)
    ensures TunneledConfigs(sources + [s], targets) == TunneledConfigs(sources, targets) + TunneledRow(s, targets)
    decreases |sources|
  {
    if sources == [] {
      assert [s][1..] == [] && [] + [s] == [s];
      assert TunneledConfigs([], targets) == [];
    } else {
      RowsConcat(sources[1..], s, targets);
      assert (sources + [s])[1..] == sources[1..] + [s];
    }
  }

  ghost function RowWishes(p: Pair, s: TunneledEntity, a: nat, targets: seq<TunneledEntity>, m: nat,
                           config: SourceConfig): set<Wish>
    requires m <= |targets|
  {
    set b: nat | b < m && SaysTunneled(s, targets[b], config) :: Wish(p, a, b)
  }

  lemma {:induction false} RowCount(p: Pair, s: TunneledEntity, a: nat, targets: seq<TunneledEntity>, m: nat,
                                    config: SourceConfig)
    requires m <= |targets|
    ensures multiset(TunneledRow(s, targets)[..m])[config] == |RowWishes(p, s, a, targets, m, config)|
  {
    if m == 0 {
      assert RowWishes(p, s, a, targets, 0, config) == {};
    } else {
      RowCount(p, s, a, targets, m - 1, config);
      var row := TunneledRow(s, targets);
      assert row[..m] == row[..m - 1] + [row[m - 1]];
      OneMoreWish(p, s, a, targets, m, config);
    }
  }

  lemma OneMoreWish(p: Pair, s: TunneledEntity, a: nat, targets: seq<TunneledEntity>, m: nat, config: SourceConfig)
    requires 1 <= m <= |targets|
    ensures |RowWishes(p, s, a, targets, m, config)|
         == |RowWishes(p, s, a, targets, m - 1, config)| + (if SaysTunneled(s, targets[m - 1], config) then 1 else 0)
  {
    var before := RowWishes(p, s, a, targets, m - 1, config);
    if SaysTunneled(s, targets[m - 1], config) {
      assert RowWishes(p, s, a, targets, m, config) == before + {Wish(p, a, m - 1)};
    } else {
      assert RowWishes(p, s, a, targets, m, config) == before;
    }
  }

  ghost function TunneledWishes(p: Pair, sources: seq<TunneledEntity>, n: nat, targets: seq<TunneledEntity>,
                                config: SourceConfig): set<Wish>
    requires n <= |sources|
  {
    set a: nat, b: nat | a < n && b < |targets| && SaysTunneled(sources[a], targets[b], config) :: Wish(p, a, b)
  }

  lemma {:induction false} TunneledCount(p: Pair, sources: seq<TunneledEntity>, n: nat, targets: seq<TunneledEntity>,
                                         config: SourceConfig)
    requires n <= |sources|
    ensures multiset(TunneledConfigs(sources[..n], targets))[config]
         == |TunneledWishes(p, sources, n, targets, config)|
  {
    if n == 0 {
      assert TunneledWishes(p, sources, 0, targets, config) == {};
      assert TunneledConfigs(sources[..0], targets) == [];
    } else {
      TunneledCount(p, sources, n - 1, targets, config);
      var s, row := sources[n - 1], TunneledRow(sources[n - 1], targets);
      assert sources[..n] == sources[..n - 1] + [s];
      RowsConcat(sources[..n - 1], s, targets);
      RowCount(p, s, n - 1, targets, |targets|, config);
      assert row[..|targets|] == row;
      OneMoreRowOfWishes(p, sources, n, targets, config);
      assert multiset(TunneledConfigs(sources[..n], targets))[config]
          == multiset(TunneledConfigs(sources[..n - 1], targets))[config] + multiset(row)[config];
    }
  }

  lemma OneMoreRowOfWishes(p: Pair, sources: seq<TunneledEntity>, n: nat, targets: seq<TunneledEntity>,
                           config: SourceConfig)
    requires 1 <= n <= |sources|
    ensures |TunneledWishes(p, sources, n, targets, config)|
         == |TunneledWishes(p, sources, n - 1, targets, config)|
            + |RowWishes(p, sources[n - 1], n - 1, targets, |targets|, config)|
  {
    var before := TunneledWishes(p, sources, n - 1, targets, config);
    var more := RowWishes(p, sources[n - 1], n - 1, targets, |targets|, config);
    assert TunneledWishes(p, sources, n, targets, config) == before + more;
    assert before !! more;
  }

  lemma AddressSaid(G: Graph, device: Name, next: Name, pattern: Pattern)
    requires device in G && (G[device].kind.External? || Port(G[device].links, next) < |G[device].links|)
    ensures SaysAddress(G, device, next, pattern) <==> pattern == AddressPattern(G, device, next)
  {
    if !G[device].kind.External? {
      var links, k := G[device].links, Port(G[device].links, next);
      forall l | 0 <= l < |links| && links[l].to == next && (forall m :: 0 <= m < l ==> links[m].to != next)
        ensures l == k
      {
      }
    }
  }

  /** A pair gives each config as often as its sources and targets ask for it. */
  lemma PairAsks(G: Graph, p: Pair, config: SourceConfig)
    requires Joined(G, p) && p.0.device != p.1.device && Resolves(G, p)
    ensures multiset(PairConfigs(G, p))[config] == |WishesOf(G, p, config)|
  {
    EndsHavePorts(G, p);
    var back := Back(G, p);
    if p.0.details.Raw? && p.1.details.Raw? {
      AddressSaid(G, p.0.device, back[|back| - 2], config.src);
      AddressSaid(G, p.1.device, back[1], config.dst);
      assert WishesOf(G, p, config) == if SaysRaw(G, p, config) then {Wish(p, 0, 0)} else {};
    } else if p.0.details.Tunneled? && p.1.details.Tunneled? {
      var sources, targets := p.0.details.entities, p.1.details.entities;
      TunneledCount(p, sources, |sources|, targets, config);
      assert sources[..|sources|] == sources;
      assert WishesOf(G, p, config) == TunneledWishes(p, sources, |sources|, targets, config);
    } else {
      assert WishesOf(G, p, config) == {};
    }
  }

  lemma ChosenOfOne(G: Graph, C: set<Name>, p: Pair, e: Edge, config: SourceConfig)
    ensures !SourceAt(G, C, p, e) ==> Chosen({p}, AsksAt(G, C, e, config)) == {}
    ensures SourceAt(G, C, p, e) ==> Chosen({p}, AsksAt(G, C, e, config)) == WishesOf(G, p, config)
  {
  }

  lemma PartIsWishes(G: Graph, C: set<Name>, p: Pair, e: Edge, config: SourceConfig)
    requires Placed(G, C, p)
    ensures ConfigPart(G, C, e)(p)[config] == |Chosen({p}, AsksAt(G, C, e, config))|
  {
    WhenPaired(G, C, p);
    ChosenOfOne(G, C, p, e, config);
    if SourceAt(G, C, p, e) {
      PairAsks(G, p, config);
    }
  }

  lemma {:induction false} GatheredWishes(G: Graph, C: set<Name>, P: set<Pair>, e: Edge, config: SourceConfig)
    requires forall p :: p in P ==> Placed(G, C, p)
    ensures Gather(P, ConfigPart(G, C, e))[config] == |Wishes(G, C, P, e, config)|
    decreases P
  {
    if P == {} {
      assert Wishes(G, C, P, e, config) == {};
    } else {
      var p :| p in P;
      GatherStep(P, ConfigPart(G, C, e), p);
      GatheredWishes(G, C, P - {p}, e, config);
      PartIsWishes(G, C, p, e, config);
      ChosenStep(P, p, AsksAt(G, C, e, config));
    }
  }

  /** The configs of a request: at each source edge every config is listed as often as the pairs with this
      edge ask for it, and so no other config is listed. */
  lemma ConfigsAreWishes(G: Graph, C: set<Name>, P: set<Pair>, E: Entities, e: Edge, config: SourceConfig)
    requires EntitiesOfRequest(G, C, P, E) && forall p :: p in P ==> Placed(G, C, p)
    requires e in E.sources
    ensures multiset(E.sources[e])[config] == |Wishes(G, C, P, e, config)|
  {
    var inner :| Collects(G, C, P, E.(transits := inner)) && E.transits == inner + EdgeDevices(E);
    var E' := E.(transits := inner);
    assert multiset(E'.sources[e]) == Gather(P, ConfigPart(G, C, e));
    GatheredWishes(G, C, P, e, config);
  }

  /** In particular the traffic of every raw pair with a source is matched there. */
  lemma RawPairIsMatched(G: Graph, C: set<Name>, P: set<Pair>, E: Entities, p: Pair, i: nat, j: nat)
    requires EntitiesOfRequest(G, C, P, E) && forall q :: q in P ==> Placed(G, C, q)
    requires p in P && p.0.details.Raw? && p.1.details.Raw? && Spans(G, C, p, i, j)
    ensures var e := Edge(Back(G, p)[i], Back(G, p)[i + 1]);
      e in E.sources && exists config :: config in E.sources[e] && SaysRaw(G, p, config)
  {
    var e := Edge(Back(G, p)[i], Back(G, p)[i + 1]);
    assert SourceAt(G, C, p, e);
    RequestIsSpanned(G, C, P, E);
    WhenPaired(G, C, p);
    var config := RawConfig(G, p);
    ConfigsAreWishes(G, C, P, E, e, config);
    WishCounts(G, C, P, e, config, Wish(p, 0, 0));
    assert multiset(E.sources[e])[config] > 0;
  }

  lemma WishCounts(G: Graph, C: set<Name>, P: set<Pair>, e: Edge, config: SourceConfig, w: Wish)
    requires w.pair in P && SourceAt(G, C, w.pair, e) && Asks(G, w.pair, w.a, w.b, config)
    ensures |Wishes(G, C, P, e, config)| > 0
  {
    assert w in Wishes(G, C, P, e, config);
  }

  lemma RawConfig(G: Graph, p: Pair) returns (config: SourceConfig)
    requires Joined(G, p) && p.0.device != p.1.device && Resolves(G, p) && p.0.details.Raw? && p.1.details.Raw?
    ensures SaysRaw(G, p, config)
  {
    EndsHavePorts(G, p);
    var back := Back(G, p);
    config := PairConfigs(G, p)[0];
    AddressSaid(G, p.0.device, back[|back| - 2], config.src);
    AddressSaid(G, p.1.device, back[1], config.dst);
  }
}
