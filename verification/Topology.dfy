/** Devices, links and walks.

    A graph maps names to devices, and each device lists its links in the order of its ports. A link
    has an address and a mask of its own at either end; the two ends are two entries, one with each
    device. Links to devices that do not exist, and links without a way back, are possible and excluded
    by the predicates Closed and Symmetric where the code relies on it. The topology does not change
    while a request is handled. */
module Topology {
  type Name = string

  /** The four octets of an address. */
  datatype Address = Address(a: nat, b: nat, c: nat, d: nat)

  /** What a match on an address accepts. */
  datatype Pattern = AnyAddress | Exact(address: Address)

  datatype Link = Link(to: Name, mac: string, ipv4: Address, mask: nat)

  datatype Kind = Host | IncSwitch(program: string) | NetDevice | External

  datatype Device = Device(name: Name, links: seq<Link>, kind: Kind)

  type Graph = map<Name, Device>

  function Neighbours(G: Graph, u: Name): set<Name>
    requires u in G
  {
    set i | 0 <= i < |G[u].links| :: G[u].links[i].to
  }

  ghost predicate Closed(G: Graph) {
    && (forall u :: u in G ==> G[u].name == u)
    && (forall u, i :: u in G && 0 <= i < |G[u].links| ==> G[u].links[i].to in G)
  }

  ghost predicate Symmetric(G: Graph)
    requires Closed(G)
  {
    forall u, v :: u in G && v in Neighbours(G, u) ==> u in Neighbours(G, v)
  }

  ghost predicate IsWalk(G: Graph, p: seq<Name>) {
    && p != []
    && (forall i :: 0 <= i < |p| ==> p[i] in G)
    && (forall i, j {:trigger p[i], p[j]} :: 0 <= i < j < |p| && j == i + 1 ==> p[j] in Neighbours(G, p[i]))
  }

  ghost predicate WalkFromTo(G: Graph, p: seq<Name>, u: Name, v: Name) {
    IsWalk(G, p) && p[0] == u && p[|p| - 1] == v
  }

  ghost predicate Simple(p: seq<Name>) {
    forall i, j :: 0 <= i < j < |p| ==> p[i] != p[j]
  }

  ghost predicate Reachable(G: Graph, u: Name, v: Name) {
    exists p :: WalkFromTo(G, p, u, v)
  }

  ghost predicate Connected(G: Graph) {
    forall u, v {:trigger Reachable(G, u, v)} :: u in G && v in G ==> Reachable(G, u, v)
  }

  /** `n` is the number of links of a shortest walk from `u` to `v`. */
  ghost predicate IsDist(G: Graph, u: Name, v: Name, n: nat) {
    && (exists p :: WalkFromTo(G, p, u, v) && |p| == n + 1)
    && (forall p :: WalkFromTo(G, p, u, v) ==> |p| >= n + 1)
  }

  /** The index of the first link to `to`, or the number of links if there is none. */
  function Port(links: seq<Link>, to: Name): (k: nat)
    ensures k <= |links|
    ensures k < |links| ==> links[k].to == to
    ensures forall j :: 0 <= j < k ==> links[j].to != to
  {
    if links == [] || links[0].to == to then 0 else 1 + Port(links[1..], to)
  }

  /** `port` is the number of the first link of `u` to `v`. Ports are counted from one. */
  predicate FirstPort(G: Graph, u: Name, v: Name, port: int)
    requires u in G
  {
    && 1 <= port <= |G[u].links| && G[u].links[port - 1].to == v
    && forall j :: 0 <= j < port - 1 ==> G[u].links[j].to != v
  }

  lemma PortOfNeighbour(G: Graph, u: Name, v: Name)
    requires u in G && v in Neighbours(G, u)
    ensures Port(G[u].links, v) < |G[u].links|
  {
  }

  lemma PortIsFirst(G: Graph, u: Name, v: Name)
    requires u in G && v in Neighbours(G, u)
    ensures FirstPort(G, u, v, Port(G[u].links, v) + 1)
  {
    PortOfNeighbour(G, u, v);
  }

  function Reversed(p: seq<Name>): (r: seq<Name>)
    ensures |r| == |p| && forall i :: 0 <= i < |p| ==> r[i] == p[|p| - 1 - i]
  {
    seq(|p|, i requires 0 <= i < |p| => p[|p| - 1 - i])
  }
}
