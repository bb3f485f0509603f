/** Tree topologies: there the depth-first path of the telemetry code is the breadth-first path of the
    forwarding code. */
module Trees {
  import opened Topology
  import opened BreadthFirst
  import opened DepthFirst

  ghost predicate IsCycle(G: Graph, c: seq<Name>) {
    |c| >= 3 && Simple(c) && IsWalk(G, c) && c[0] in Neighbours(G, c[|c| - 1])
  }

  /** Connected, without cycles, and with every link present in both directions. */
  ghost predicate IsTree(G: Graph) {
    Closed(G) && Symmetric(G) && Connected(G) && forall c :: !IsCycle(G, c)
  }

  /** The first index after 0 at which `p` meets `q` after its head. */
  function FirstMeeting(p: seq<Name>, q: seq<Name>, j: nat): (m: nat)
    requires 1 <= j <= |p| && q != [] && exists k :: j <= k < |p| && p[k] in q[1..]
    ensures j <= m < |p| && p[m] in q[1..]
    ensures forall k :: j <= k < m ==> p[k] !in q[1..]
    decreases |p| - j
  {
    if p[j] in q[1..] then j else FirstMeeting(p, q, j + 1)
  }

  /** Where two walks part at their head and meet again at p[j] and q[k], the way out along `p` and
      back along `q`. */
  function RoundTrip(p: seq<Name>, q: seq<Name>, j: nat, k: nat): (c: seq<Name>)
    requires 1 <= j < |p| && 1 <= k < |q|
    ensures |c| == j + k
    ensures forall i :: 0 <= i < |c| ==> c[i] == if i <= j then p[i] else q[k - (i - j)]
  {
    p[..j + 1] + Reversed(q[1..k])
  }

  lemma RoundTripIsWalk(G: Graph, p: seq<Name>, q: seq<Name>, j: nat, k: nat)
    requires Closed(G) && Symmetric(G) && IsWalk(G, p) && IsWalk(G, q)
    requires p[0] == q[0] && 1 <= j < |p| && 1 <= k < |q| && p[j] == q[k]
    ensures IsWalk(G, RoundTrip(p, q, j, k))
    ensures var c := RoundTrip(p, q, j, k); c[0] in Neighbours(G, c[|c| - 1])
  {
    var c := RoundTrip(p, q, j, k);
    forall i | 0 <= i < |c| - 1 ensures c[i + 1] in Neighbours(G, c[i]) {
      if i >= j {
        var t := k - 1 - (i - j);
        assert q[t + 1] in Neighbours(G, q[t]);
      }
    }
    assert c[|c| - 1] == q[1];
    assert q[1] in Neighbours(G, q[0]);
  }

  lemma RoundTripIsSimple(p: seq<Name>, q: seq<Name>, j: nat, k: nat)
    requires Simple(p) && Simple(q) && 1 <= j < |p| && 1 <= k < |q| && p[0] == q[0] && p[j] == q[k]
    requires forall i :: 1 <= i < j ==> p[i] !in q[1..]
    ensures Simple(RoundTrip(p, q, j, k))
  {
  }

  /** Two simple walks that part at once and meet again close a cycle. */
  lemma PartingClosesCycle(G: Graph, p: seq<Name>, q: seq<Name>, j: nat, k: nat)
    requires Closed(G) && Symmetric(G) && IsWalk(G, p) && IsWalk(G, q) && Simple(p) && Simple(q)
    requires p[0] == q[0] && 1 <= j < |p| && 1 <= k < |q| && p[j] == q[k] && p[1] != q[1]
    requires forall i :: 1 <= i < j ==> p[i] !in q[1..]
    ensures IsCycle(G, RoundTrip(p, q, j, k))
  {
    RoundTripIsWalk(G, p, q, j, k);
    RoundTripIsSimple(p, q, j, k);
  }

  /** In a tree there is only one simple path between two devices. */
  lemma {:induction false} UniqueSimplePath(G: Graph, p: seq<Name>, q: seq<Name>, u: Name, v: Name)
    requires IsTree(G) && Simple(p) && Simple(q) && WalkFromTo(G, p, u, v) && WalkFromTo(G, q, u, v)
    ensures p == q
    decreases |p|
  {
    if |p| == 1 || |q| == 1 {
      assert u == v;
    } else if p[1] == q[1] {
      UniqueSimplePath(G, p[1..], q[1..], p[1], v);
      assert p == [u] + p[1..] && q == [u] + q[1..];
    } else {
      assert q[1..][|q| - 2] == v == p[|p| - 1];
      var j := FirstMeeting(p, q, 1);
      var k :| 0 <= k < |q[1..]| && q[1..][k] == p[j];
      PartingClosesCycle(G, p, q, j, k + 1);
      assert false;
    }
  }

  /** A shortest walk visits no device twice. */
  lemma ShortestIsSimple(G: Graph, p: seq<Name>, u: Name, v: Name)
    requires WalkFromTo(G, p, u, v) && IsDist(G, u, v, |p| - 1)
    ensures Simple(p)
  {
    forall i, j | 0 <= i < j < |p| ensures p[i] != p[j] {
      if p[i] == p[j] {
        var shorter := p[..i] + p[j..];
        forall k | 0 <= k < |shorter| - 1 ensures shorter[k + 1] in Neighbours(G, shorter[k]) {
          if k >= i {
            assert shorter[k] == p[k - i + j] && shorter[k + 1] == p[k - i + j + 1];
          } else if k == i - 1 {
            assert shorter[k + 1] == p[j] == p[i];
          }
        }
        assert WalkFromTo(G, shorter, u, v);
        assert false;
      }
    }
  }

  /** The path found depth first is the path found breadth first. */
  lemma DfsPathIsBfsPath(G: Graph, source: Name, target: Name)
    requires IsTree(G) && source in G && target in G
    ensures target in Tree(G, source).parents
    ensures Reversed(ReversedPath(G, source, target)) == PathTo(G, source, target)
  {
    AllDiscovered(G, source, target);
    assert Reachable(G, source, target);
    DfsIsCorrect(G, source, target);
    PathToIsShortest(G, source, target);
    ShortestIsSimple(G, PathTo(G, source, target), source, target);
    var back := ReversedPath(G, source, target);
    assert Simple(Reversed(back));
    UniqueSimplePath(G, Reversed(back), PathTo(G, source, target), source, target);
  }

  /** So the port that telemetry takes towards a device is the port of the next hop that forwarding uses. */
  lemma TelemetryPortIsForwardingPort(G: Graph, source: Name, target: Name)
    requires IsTree(G) && source in G && target in G && source != target
    ensures target in Tree(G, source).parents && |ReversedPath(G, source, target)| >= 2
    ensures PortTowards(G, source, target) == Port(G[source].links, NextHop(G, source, target))
  {
    DfsPathIsBfsPath(G, source, target);
    assert Reachable(G, source, target);
    PathEnds(G, source, target);
    var back := ReversedPath(G, source, target);
    assert Reversed(back)[1] == back[|back| - 2];
  }
}
