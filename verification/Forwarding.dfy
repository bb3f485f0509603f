/** The forwarding entries of the switches. */
module Forwarding {
  // Host routes to the peers, and one route per network behind them. They assume a tree.

  import opened Topology
  import opened Bytestrings
  import opened NetworkIps
  import opened BreadthFirst
  import opened Trees

  datatype Network = Network(ip: seq<Byte>, mask: nat)

  /** `network` is reached through `port`, which counts from 1. */
  datatype ForwardEntry = ForwardEntry(network: Network, srcMac: string, dstMac: string, port: nat)

  /** Other addresses and masks make the code panic. */
  predicate ValidLink(l: Link) {
    l.ipv4.a < 256 && l.ipv4.b < 256 && l.ipv4.c < 256 && l.ipv4.d < 256 && l.mask <= 32
  }

  ghost predicate ValidLinks(G: Graph) {
    forall u, i :: u in G && 0 <= i < |G[u].links| ==> ValidLink(G[u].links[i])
  }

  function Octets(l: Link): (octets: seq<Byte>)
    requires ValidLink(l)
  {
    [l.ipv4.a, l.ipv4.b, l.ipv4.c, l.ipv4.d]
  }

  function NetworkOf(l: Link): Network
    requires ValidLink(l)
  {
    Network(LpmMasked(Octets(l), l.mask), l.mask)
  }

  /** Packets leave `s` through the first link to `hop`, with the MAC of that link, for the MAC of the first
      link of `hop` back to `s`. */
  ghost predicate LeadsTo(G: Graph, s: Name, hop: Name, x: ForwardEntry)
    requires s in G
  {
    && FirstPort(G, s, hop, x.port) && x.srcMac == G[s].links[x.port - 1].mac
    && hop in G && exists p :: FirstPort(G, hop, s, p) && x.dstMac == G[hop].links[p - 1].mac
  }

  lemma LeadsToOne(G: Graph, s: Name, hop: Name, x: ForwardEntry, y: ForwardEntry)
    requires s in G && LeadsTo(G, s, hop, x) && LeadsTo(G, s, hop, y)
    ensures x.port == y.port && x.srcMac == y.srcMac && x.dstMac == y.dstMac
  {
    OnePort(G, s, hop, x.port, y.port);
    var p :| FirstPort(G, hop, s, p) && x.dstMac == G[hop].links[p - 1].mac;
    var q :| FirstPort(G, hop, s, q) && y.dstMac == G[hop].links[q - 1].mac;
    OnePort(G, hop, s, p, q);
  }

  lemma OnePort(G: Graph, u: Name, v: Name, p: int, q: int)
    requires u in G && FirstPort(G, u, v, p) && FirstPort(G, u, v, q)
    ensures p == q
  {
  }

  // ---- Direct entries ----

  /** The entry of link `i`: the address with which the peer is linked to the switch, as a network of its
      own, reached through the first link to the peer with the MAC of link `i`. */
  ghost predicate IsDirectEntry(G: Graph, s: Name, i: nat, x: ForwardEntry)
    requires s in G && i < |G[s].links|
  {
    var link := G[s].links[i];
    && FirstPort(G, s, link.to, x.port) && x.srcMac == link.mac && x.network.mask == 32
    && link.to in G
    && exists p ::
         && FirstPort(G, link.to, s, p)
         && var peerLink := G[link.to].links[p - 1];
         && x.dstMac == peerLink.mac
         && x.network.ip == [peerLink.ipv4.a, peerLink.ipv4.b, peerLink.ipv4.c, peerLink.ipv4.d]
  }

  method CreateDirectForwardEntries(G: Graph, s: Name) returns (res: seq<ForwardEntry>)
    requires Closed(G) && Symmetric(G) && ValidLinks(G) && s in G
    ensures |res| == |G[s].links| && forall i :: 0 <= i < |res| ==> IsDirectEntry(G, s, i, res[i])
  {
    res := [];
    var links := G[s].links;
    for i := 0 to |links|
      invariant |res| == i && forall j :: 0 <= j < i ==> IsDirectEntry(G, s, j, res[j])
    {
      var link := links[i];
      assert link.to in Neighbours(G, s);
      PortIsFirst(G, s, link.to);
      PortIsFirst(G, link.to, s);
      var peerPort := Port(links, link.to) + 1;
      var peerLink := G[link.to].links[Port(G[link.to].links, s)];
      res := res + [ForwardEntry(Network(Octets(peerLink), 32), link.mac, peerLink.mac, peerPort)];
    }
  }

  // ---- Indirect entries ----

  /** Link `i` of a device that is neither the switch itself nor its neighbour. */
  ghost predicate FarLink(G: Graph, s: Name, hops: map<Name, Name>, d: Name, i: nat)
    requires hops.Keys == G.Keys
  {
    d in G && hops[d] != d && i < |G[d].links|
  }

  ghost predicate HopsAreNeighbours(G: Graph, s: Name, hops: map<Name, Name>)
    requires s in G
  {
    && hops.Keys == G.Keys && hops[s] == s
    && forall d {:trigger hops[d]} :: d in G && d != s ==> hops[d] in Neighbours(G, s)
  }

  ghost predicate ValidInput(G: Graph, s: Name, hops: map<Name, Name>) {
    Closed(G) && Symmetric(G) && ValidLinks(G) && s in G && HopsAreNeighbours(G, s, hops)
  }

  /** The network of a link is what remains of its address under its mask. */
  predicate IsNetwork(l: Link, network: Network) {
    && ValidLink(l) && network.mask == l.mask
    && network.ip == LpmMasked([l.ipv4.a, l.ipv4.b, l.ipv4.c, l.ipv4.d], l.mask)
  }

  /** The entry is for the network of some far link, and leads to the next hop towards its device. */
  ghost predicate Justified(G: Graph, s: Name, hops: map<Name, Name>, x: ForwardEntry)
    requires ValidInput(G, s, hops)
  {
    exists d, i: nat ::
      FarLink(G, s, hops, d, i) && IsNetwork(G[d].links[i], x.network) && LeadsTo(G, s, hops[d], x)
  }

  ghost predicate AllJustified(G: Graph, s: Name, hops: map<Name, Name>, res: seq<ForwardEntry>)
    requires ValidInput(G, s, hops)
  {
    forall k {:trigger Justified(G, s, hops, res[k])} :: 0 <= k < |res| ==> Justified(G, s, hops, res[k])
  }

  ghost predicate Listed(res: seq<ForwardEntry>, network: Network) {
    exists k :: 0 <= k < |res| && res[k].network == network
  }

  ghost predicate DistinctNetworks(res: seq<ForwardEntry>) {
    forall j, k :: 0 <= j < k < |res| ==> res[j].network != res[k].network
  }

  /** One entry per network of the far links, each justified. */
  ghost predicate IndirectEntries(G: Graph, s: Name, hops: map<Name, Name>, res: seq<ForwardEntry>)
    requires ValidInput(G, s, hops)
  {
    && DistinctNetworks(res)
    && AllJustified(G, s, hops, res)
    && (forall d, i: nat :: FarLink(G, s, hops, d, i) ==> Listed(res, NetworkOf(G[d].links[i])))
  }

  ghost predicate Tracks(added: set<Network>, res: seq<ForwardEntry>) {
    && DistinctNetworks(res)
    && (forall k :: 0 <= k < |res| ==> res[k].network in added)
    && (forall n :: n in added ==> Listed(res, n))
  }

  /** The devices are taken in any order, as for map iteration. */
  method CreateIndirectForwardEntries(G: Graph, s: Name, hops: map<Name, Name>) returns (res: seq<ForwardEntry>)
    requires ValidInput(G, s, hops)
    ensures IndirectEntries(G, s, hops, res)
  {
    res := [];
    var addedNetworks: set<Network> := {};
    var todo := G.Keys;
    while todo != {}
      invariant todo <= G.Keys && Tracks(addedNetworks, res)
      invariant AllJustified(G, s, hops, res)
      invariant forall d, i: nat :: FarLink(G, s, hops, d, i) && d !in todo ==>
        NetworkOf(G[d].links[i]) in addedNetworks
      decreases todo
    {
      var devName :| devName in todo;
      todo := todo - {devName};
      if hops[devName] != devName {
        res, addedNetworks := AddNetworks(G, s, hops, devName, res, addedNetworks);
      }
    }
  }

  method AddNetworks(G: Graph, s: Name, hops: map<Name, Name>, d: Name, res0: seq<ForwardEntry>, added0: set<Network>)
    returns (res: seq<ForwardEntry>, added: set<Network>)
    requires ValidInput(G, s, hops) && d in G && hops[d] != d && Tracks(added0, res0)
    requires AllJustified(G, s, hops, res0)
    ensures Tracks(added, res) && added0 <= added
    ensures AllJustified(G, s, hops, res)
    ensures forall i :: 0 <= i < |G[d].links| ==> NetworkOf(G[d].links[i]) in added
  {
    res, added := res0, added0;
    var links := G[d].links;
    var via := ViaHop(G, s, hops[d]);
    for i := 0 to |links|
      invariant Tracks(added, res) && added0 <= added && AllJustified(G, s, hops, res)
      invariant NetworksIn(links, i, added)
    {
      OneMoreIn(links, i, added);
      res, added := AddNetwork(G, s, hops, d, i, via, res, added);
    }
  }

  ghost predicate NetworksIn(links: seq<Link>, n: nat, added: set<Network>) {
    n <= |links| && forall i :: 0 <= i < n ==> ValidLink(links[i]) && NetworkOf(links[i]) in added
  }

  lemma OneMoreIn(links: seq<Link>, n: nat, added: set<Network>)
    requires n < |links| && NetworksIn(links, n, added) && ValidLink(links[n])
    ensures NetworksIn(links, n + 1, added + {NetworkOf(links[n])})
  {
  }

  /** Port and addresses of all entries that lead through `hop`; the network is still to be filled in. */
  method ViaHop(G: Graph, s: Name, hop: Name) returns (via: ForwardEntry)
    requires Closed(G) && Symmetric(G) && s in G && hop in Neighbours(G, s)
    ensures LeadsTo(G, s, hop, via)
  {
    PortIsFirst(G, s, hop);
    PortIsFirst(G, hop, s);
    var srcPort := Port(G[s].links, hop);
    var srcMac, dstMac := G[s].links[srcPort].mac, G[hop].links[Port(G[hop].links, s)].mac;
    via := ForwardEntry(Network([], 0), srcMac, dstMac, srcPort + 1);
  }

  lemma StillLeads(G: Graph, s: Name, hop: Name, via: ForwardEntry, network: Network)
    requires s in G && LeadsTo(G, s, hop, via)
    ensures LeadsTo(G, s, hop, via.(network := network))
  {
  }

  method AddNetwork(G: Graph, s: Name, ghost hops: map<Name, Name>, d: Name, i: nat, via: ForwardEntry,
                    res0: seq<ForwardEntry>, added0: set<Network>)
    returns (res: seq<ForwardEntry>, added: set<Network>)
    requires ValidInput(G, s, hops) && FarLink(G, s, hops, d, i) && LeadsTo(G, s, hops[d], via)
    requires Tracks(added0, res0) && AllJustified(G, s, hops, res0)
    ensures Tracks(added, res) && added == added0 + {NetworkOf(G[d].links[i])} && AllJustified(G, s, hops, res)
  {
    res, added := res0, added0;
    var network := MaskedNetwork(G[d].links[i]);
    if network !in added {
      var x := via.(network := network);
      StillLeads(G, s, hops[d], via, network);
      NewEntry(G, s, hops, d, i, added, res, x);
      added, res := added + {network}, res + [x];
    } else {
      assert added == added0 + {network};
    }
  }

  method MaskedNetwork(link: Link) returns (network: Network)
    requires ValidLink(link)
    ensures network == NetworkOf(link)
  {
    var ip := GetNetworkIp(Octets(link), link.mask);
    network := Network(ip, link.mask);
  }

  lemma NewEntry(G: Graph, s: Name, hops: map<Name, Name>, d: Name, i: nat, added: set<Network>, res: seq<ForwardEntry>,
                 x: ForwardEntry)
    requires ValidInput(G, s, hops) && FarLink(G, s, hops, d, i)
    requires Tracks(added, res) && AllJustified(G, s, hops, res) && x.network !in added
    requires x.network == NetworkOf(G[d].links[i]) && LeadsTo(G, s, hops[d], x)
    ensures Tracks(added + {x.network}, res + [x]) && AllJustified(G, s, hops, res + [x])
  {
    NewEntryIsJustified(G, s, hops, d, i, x);
    OneMoreNetwork(added, res, x);
  }

  lemma NewEntryIsJustified(G: Graph, s: Name, hops: map<Name, Name>, d: Name, i: nat, x: ForwardEntry)
    requires ValidInput(G, s, hops) && FarLink(G, s, hops, d, i)
    requires x.network == NetworkOf(G[d].links[i]) && LeadsTo(G, s, hops[d], x)
    ensures Justified(G, s, hops, x)
  {
  }

  lemma OneMoreNetwork(added: set<Network>, res: seq<ForwardEntry>, x: ForwardEntry)
    requires Tracks(added, res) && x.network !in added
    ensures Tracks(added + {x.network}, res + [x])
  {
    var more := res + [x];
    assert more[|res|] == x;
    forall n | n in added ensures Listed(more, n) {
      assert Listed(res, n);
      var k :| 0 <= k < |res| && res[k].network == n;
      assert more[k] == res[k];
    }
  }

  // ---- In a tree whose links are subnets of their own ----

  /** The same link, seen from either end. */
  predicate SameEnds(u: Name, a: Name, v: Name, b: Name) {
    (u == v && a == b) || (u == b && a == v)
  }

  ghost predicate SameNetwork(G: Graph, u: Name, i: nat, v: Name, j: nat)
    requires ValidLinks(G) && u in G && v in G && i < |G[u].links| && j < |G[v].links|
  {
    NetworkOf(G[u].links[i]) == NetworkOf(G[v].links[j])
  }

  ghost predicate OwnSubnets(G: Graph)
    requires ValidLinks(G)
  {
    forall u, i: nat, v, j: nat {:trigger SameNetwork(G, u, i, v, j)} ::
      u in G && v in G && i < |G[u].links| && j < |G[v].links| ==>
        (SameNetwork(G, u, i, v, j) <==> SameEnds(u, G[u].links[i].to, v, G[v].links[j].to))
  }

  /** A tree without links from a device to itself. */
  ghost predicate LinkTree(G: Graph) {
    IsTree(G) && ValidLinks(G) && OwnSubnets(G) && forall u :: u in G ==> u !in Neighbours(G, u)
  }

  ghost predicate NotIncident(G: Graph, s: Name, u: Name, i: nat) {
    u in G && i < |G[u].links| && u != s && G[u].links[i].to != s
  }

  /** Both ends of a link that is not incident have the same next hop. */
  lemma EndsShareHop(G: Graph, s: Name, u: Name, v: Name)
    requires IsTree(G) && s in G && u in G && v in Neighbours(G, u) && u != s && v != s
    ensures u in Tree(G, s).parents && v in Tree(G, s).parents && NextHop(G, s, u) == NextHop(G, s, v)
  {
    AllDiscovered(G, s, u);
    AllDiscovered(G, s, v);
    PathToIsShortest(G, s, u);
    PathToIsShortest(G, s, v);
    var p, q := PathTo(G, s, u), PathTo(G, s, v);
    ShortestIsSimple(G, p, s, u);
    ShortestIsSimple(G, q, s, v);
    var p' := if v in p then CutAt(G, p, s, v) else p + [v];
    if v !in p {
      forall k | 0 <= k < |p'| - 1 ensures p'[k + 1] in Neighbours(G, p'[k]) {
        if k == |p| - 1 {
          assert p'[k] == u && p'[k + 1] == v;
        }
      }
    }
    UniqueSimplePath(G, p', q, s, v);
    assert p'[1] == p[1];
  }

  /** The part of a simple walk up to `v`. */
  ghost function CutAt(G: Graph, p: seq<Name>, s: Name, v: Name): (r: seq<Name>)
    requires IsWalk(G, p) && Simple(p) && p[0] == s && v in p
    ensures r <= p && Simple(r) && WalkFromTo(G, r, s, v)
  {
    var k :| 0 <= k < |p| && p[k] == v;
    p[..k + 1]
  }

  lemma NeighbourIsOwnHop(G: Graph, s: Name, d: Name)
    requires Closed(G) && s in G && d in Neighbours(G, s) && d != s
    ensures d in Tree(G, s).parents && NextHop(G, s, d) == d
  {
    assert WalkFromTo(G, [s, d], s, d);
    TreeSpansReachable(G, s, d);
    PathToIsShortest(G, s, d);
  }

  lemma HopIsNeighbour(G: Graph, s: Name, d: Name)
    requires Closed(G) && s in G && d in Tree(G, s).parents && d != s
    ensures NextHop(G, s, d) in Neighbours(G, s)
  {
    PathToIsShortest(G, s, d);
    var p := PathTo(G, s, d);
    assert p[1] in Neighbours(G, p[0]);
  }

  /** The next-hop map is what entry creation needs. */
  lemma HopMapIsValid(G: Graph, s: Name, hops: map<Name, Name>)
    requires LinkTree(G) && s in G && IsHopMap(G, s, hops)
    ensures ValidInput(G, s, hops)
  {
    forall d | d in G && d != s ensures hops[d] in Neighbours(G, s) {
      HopIsNeighbour(G, s, d);
    }
  }

  /** Of the two ends of a link that is not incident one is far, and its hop leads to the link. */
  lemma FarEnd(G: Graph, s: Name, hops: map<Name, Name>, u: Name, i: nat) returns (d: Name, j: nat)
    requires LinkTree(G) && s in G && IsHopMap(G, s, hops) && NotIncident(G, s, u, i)
    ensures FarLink(G, s, hops, d, j) && SameEnds(u, G[u].links[i].to, d, G[d].links[j].to)
  {
    var v := G[u].links[i].to;
    assert v in Neighbours(G, u);
    EndsShareHop(G, s, u, v);
    if hops[u] != u {
      return u, i;
    }
    PortOfNeighbour(G, v, u);
    return v, Port(G[v].links, u);
  }

  /** A far link is not incident. */
  lemma FarIsNotIncident(G: Graph, s: Name, hops: map<Name, Name>, d: Name, i: nat)
    requires Closed(G) && Symmetric(G) && s in G && IsHopMap(G, s, hops) && FarLink(G, s, hops, d, i)
    ensures NotIncident(G, s, d, i)
  {
    assert G[d].links[i].to in Neighbours(G, d);
    if G[d].links[i].to == s {
      NeighbourIsOwnHop(G, s, d);
    }
  }

  /** The entry for the network of a link, through the breadth-first next hop towards it. */
  ghost predicate IsTreeEntry(G: Graph, s: Name, u: Name, i: nat, x: ForwardEntry)
    requires LinkTree(G) && s in G && NotIncident(G, s, u, i)
  {
    AllDiscovered(G, s, u);
    IsNetwork(G[u].links[i], x.network) && LeadsTo(G, s, NextHop(G, s, u), x)
  }

  lemma SameLinkSameEntry(G: Graph, s: Name, u: Name, i: nat, v: Name, j: nat, x: ForwardEntry)
    requires LinkTree(G) && s in G && NotIncident(G, s, u, i) && NotIncident(G, s, v, j)
    requires SameEnds(u, G[u].links[i].to, v, G[v].links[j].to) || SameNetwork(G, u, i, v, j)
    ensures IsTreeEntry(G, s, u, i, x) <==> IsTreeEntry(G, s, v, j, x)
  {
    assert SameNetwork(G, u, i, v, j);
    var a := G[u].links[i].to;
    assert a in Neighbours(G, u);
    EndsShareHop(G, s, u, a);
  }

  lemma OneTreeEntry(G: Graph, s: Name, u: Name, i: nat, x: ForwardEntry, y: ForwardEntry)
    requires LinkTree(G) && s in G && NotIncident(G, s, u, i)
    requires IsTreeEntry(G, s, u, i, x) && IsTreeEntry(G, s, u, i, y)
    ensures x == y
  {
    AllDiscovered(G, s, u);
    LeadsToOne(G, s, NextHop(G, s, u), x, y);
  }

  /** A justified entry is that of its link. */
  lemma JustifiedIsTreeEntry(G: Graph, s: Name, hops: map<Name, Name>, x: ForwardEntry) returns (d: Name, i: nat)
    requires LinkTree(G) && s in G && IsHopMap(G, s, hops) && ValidInput(G, s, hops) && Justified(G, s, hops, x)
    ensures NotIncident(G, s, d, i) && IsTreeEntry(G, s, d, i, x) && x.network == NetworkOf(G[d].links[i])
  {
    d, i :| FarLink(G, s, hops, d, i) && IsNetwork(G[d].links[i], x.network) && LeadsTo(G, s, hops[d], x);
    FarIsNotIncident(G, s, hops, d, i);
  }

  /** Whatever the order of iteration, a switch gets exactly the entries of the links that are not its
      own, one per subnet, each through the breadth-first next hop towards the link. */
  lemma TreeForwarding(G: Graph, s: Name, hops: map<Name, Name>, res: seq<ForwardEntry>, x: ForwardEntry)
    requires LinkTree(G) && s in G && IsHopMap(G, s, hops) && ValidInput(G, s, hops) && IndirectEntries(G, s, hops, res)
    ensures DistinctNetworks(res)
    ensures x in res <==> exists u, i: nat :: NotIncident(G, s, u, i) && IsTreeEntry(G, s, u, i, x)
  {
    if x in res {
      var k :| 0 <= k < |res| && res[k] == x;
      assert Justified(G, s, hops, res[k]);
      var d, i := JustifiedIsTreeEntry(G, s, hops, x);
    }
    if u, i: nat :| NotIncident(G, s, u, i) && IsTreeEntry(G, s, u, i, x) {
      TreeEntryIsListed(G, s, hops, res, x, u, i);
    }
  }

  lemma TreeEntryIsListed(G: Graph, s: Name, hops: map<Name, Name>, res: seq<ForwardEntry>, x: ForwardEntry,
                          u: Name, i: nat)
    requires LinkTree(G) && s in G && IsHopMap(G, s, hops) && ValidInput(G, s, hops) && IndirectEntries(G, s, hops, res)
    requires NotIncident(G, s, u, i) && IsTreeEntry(G, s, u, i, x)
    ensures x in res
  {
    var d, j := FarEnd(G, s, hops, u, i);
    FarIsNotIncident(G, s, hops, d, j);
    assert Listed(res, NetworkOf(G[d].links[j]));
    var k :| 0 <= k < |res| && res[k].network == NetworkOf(G[d].links[j]);
    assert Justified(G, s, hops, res[k]);
    var e, l := JustifiedIsTreeEntry(G, s, hops, res[k]);
    SameLinkSameEntry(G, s, u, i, d, j, x);
    assert SameNetwork(G, d, j, e, l);
    SameLinkSameEntry(G, s, d, j, e, l, x);
    OneTreeEntry(G, s, e, l, x, res[k]);
  }

  lemma {:induction false} DistinctCount(res: seq<ForwardEntry>, x: ForwardEntry)
    requires DistinctNetworks(res)
    ensures multiset(res)[x] == if x in res then 1 else 0
  {
    if res == [] {
    } else {
      var n := |res| - 1;
      DistinctCount(res[..n], x);
      assert res == res[..n] + [res[n]];
    }
  }

  /** Two iteration orders give the same entries. */
  lemma OrderDoesNotMatter(G: Graph, s: Name, hops: map<Name, Name>, res: seq<ForwardEntry>, other: seq<ForwardEntry>)
    requires LinkTree(G) && s in G && IsHopMap(G, s, hops) && ValidInput(G, s, hops)
    requires IndirectEntries(G, s, hops, res) && IndirectEntries(G, s, hops, other)
    ensures multiset(res) == multiset(other)
  {
    forall x ensures multiset(res)[x] == multiset(other)[x] {
      TreeForwarding(G, s, hops, res, x);
      TreeForwarding(G, s, hops, other, x);
      DistinctCount(res, x);
      DistinctCount(other, x);
    }
  }

  /** The entries of one switch, from the next hops found breadth first. */
  method SwitchEntries(G: Graph, s: Name) returns (direct: seq<ForwardEntry>, indirect: seq<ForwardEntry>)
    requires LinkTree(G) && s in G
    ensures |direct| == |G[s].links| && forall i :: 0 <= i < |direct| ==> IsDirectEntry(G, s, i, direct[i])
    ensures DistinctNetworks(indirect)
    ensures forall x :: x in indirect <==> exists u, i: nat :: NotIncident(G, s, u, i) && IsTreeEntry(G, s, u, i, x)
  {
    direct := CreateDirectForwardEntries(G, s);
    var nextHops := GetNextHopsMap(G, s);
    HopMapIsValid(G, s, nextHops);
    indirect := CreateIndirectForwardEntries(G, s, nextHops);
    forall x ensures x in indirect <==> exists u, i: nat :: NotIncident(G, s, u, i) && IsTreeEntry(G, s, u, i, x) {
      TreeForwarding(G, s, nextHops, indirect, x);
    }
  }
}
