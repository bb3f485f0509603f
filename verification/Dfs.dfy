/** The depth-first search for the path of a request. */
module DepthFirst {
  // In the code it is a recursive closure with a visited set that all its calls share.

  import opened Wrappers
  import opened Topology

  // ---- The search as a function ----

  /** Search from `cur`, not entering `visited`. The result holds the devices visited in the end and
      the path found, from the target back to `cur`, or the empty path. */
  function Dfs(G: Graph, target: Name, cur: Name, visited: set<Name>): (r: (set<Name>, seq<Name>))
    requires Closed(G) && cur in G && cur !in visited && visited <= G.Keys
    ensures visited + {cur} <= r.0 <= G.Keys
    decreases G.Keys - visited, 0, 0
  {
    FewerLeft(G, visited, visited + {cur});
    if cur == target then (visited + {cur}, [cur])
    else DfsLinks(G, target, cur, G[cur].links, visited + {cur})
  }

  /** The rest of the search from `cur`: only `links` are still to be followed. */
  function DfsLinks(G: Graph, target: Name, cur: Name, links: seq<Link>, visited: set<Name>)
    : (r: (set<Name>, seq<Name>))
    requires Closed(G) && visited <= G.Keys && forall i :: 0 <= i < |links| ==> links[i].to in G
    ensures visited <= r.0 <= G.Keys
    decreases G.Keys - visited, 1, |links|
  {
    if links == [] then (visited, [])
    else if links[0].to in visited then DfsLinks(G, target, cur, links[1..], visited)
    else
      var (v, path) := Dfs(G, target, links[0].to, visited);
      FewerLeft(G, visited, v);
      if path != [] then (v, path + [cur]) else DfsLinks(G, target, cur, links[1..], v)
  }

  lemma FewerLeft(G: Graph, before: set<Name>, after: set<Name>)
    requires before <= after <= G.Keys && before != after
    ensures G.Keys - after < G.Keys - before
  {
  }

  function ReversedPath(G: Graph, source: Name, target: Name): seq<Name>
    requires Closed(G) && source in G
  {
    Dfs(G, target, source, {}).1
  }

  // ---- The search as in the code ----

  /** One call of runDfs: the variables that its recursive closure shares. */
  class DfsRun {
    const G: Graph
    const target: Name
    var visited: set<Name>
    var reversedPath: seq<Name>

    constructor (G: Graph, target: Name)
      ensures this.G == G && this.target == target && visited == {} && reversedPath == []
    {
      this.G, this.target := G, target;
      visited, reversedPath := {}, [];
    }

    method Search(cur: Name)
      requires Closed(G) && cur in G && cur !in visited && visited <= G.Keys && reversedPath == []
      modifies this
      ensures (visited, reversedPath) == Dfs(G, target, cur, old(visited))
      decreases G.Keys - visited
    {
      FewerLeft(G, visited, visited + {cur});
      visited := visited + {cur};
      ghost var visited1 := visited;
      if cur == target {
        reversedPath := reversedPath + [cur];
        assert reversedPath == [cur];
        return;
      }
      var links := G[cur].links;
      for i := 0 to |links|
        invariant reversedPath == [] && visited1 <= visited <= G.Keys
        invariant DfsLinks(G, target, cur, links[i..], visited) == DfsLinks(G, target, cur, links, visited1)
      {
        assert links[i..][1..] == links[i + 1..];
        if links[i].to !in visited {
          ShrinkingRest(G, old(visited), visited);
          Search(links[i].to);
          if |reversedPath| > 0 {
            reversedPath := reversedPath + [cur];
            return;
          }
        }
      }
      assert links[|links|..] == [];
    }
  }

  lemma ShrinkingRest(G: Graph, before: set<Name>, now: set<Name>)
    requires before < now <= G.Keys
    ensures G.Keys - now < G.Keys - before
  {
    FewerLeft(G, before, now);
  }

  method RunDfs(G: Graph, source: Name, target: Name) returns (reversedPath: seq<Name>)
    requires Closed(G) && source in G
    ensures reversedPath == ReversedPath(G, source, target)
  {
    var run := new DfsRun(G, target);
    run.Search(source);
    return run.reversedPath;
  }

  // ---- What the search finds ----

  /** The path is simple, goes from `cur` to the target over real links when read backwards, and stays
      within the devices visited by this search. */
  ghost predicate PathBack(G: Graph, path: seq<Name>, target: Name, cur: Name, within: set<Name>) {
    && path != [] && path[0] == target && path[|path| - 1] == cur && Simple(path)
    && (forall i :: 0 <= i < |path| ==> path[i] in G && path[i] in within)
    && (forall i :: 0 <= i < |path| - 1 ==> path[i] in Neighbours(G, path[i + 1]))
  }

  lemma {:induction false} DfsFindsPath(G: Graph, target: Name, cur: Name, visited: set<Name>)
    requires Closed(G) && cur in G && cur !in visited && visited <= G.Keys
    ensures var (v, path) := Dfs(G, target, cur, visited);
      path != [] ==> PathBack(G, path, target, cur, v - visited)
    decreases G.Keys - visited, 0, 0
  {
    FewerLeft(G, visited, visited + {cur});
    if cur != target {
      DfsLinksFindsPath(G, target, cur, G[cur].links, visited + {cur});
    }
  }

  lemma {:induction false} DfsLinksFindsPath(G: Graph, target: Name, cur: Name, links: seq<Link>, visited: set<Name>)
    requires Closed(G) && visited <= G.Keys && cur in visited
    requires forall i :: 0 <= i < |links| ==> links[i].to in G && links[i].to in Neighbours(G, cur)
    ensures var (v, path) := DfsLinks(G, target, cur, links, visited);
      path != [] ==> PathBack(G, path, target, cur, v - visited + {cur})
    decreases G.Keys - visited, 1, |links|
  {
    if links == [] {
    } else if links[0].to in visited {
      DfsLinksFindsPath(G, target, cur, links[1..], visited);
    } else {
      DfsFindsPath(G, target, links[0].to, visited);
      var (v, path) := Dfs(G, target, links[0].to, visited);
      FewerLeft(G, visited, v);
      if path == [] {
        DfsLinksFindsPath(G, target, cur, links[1..], v);
      } else {
        ExtendBack(G, path, target, links[0].to, cur, v - visited);
      }
    }
  }

  lemma ExtendBack(G: Graph, path: seq<Name>, target: Name, next: Name, cur: Name, within: set<Name>)
    requires PathBack(G, path, target, next, within) && cur in G && cur !in within && next in Neighbours(G, cur)
    ensures PathBack(G, path + [cur], target, cur, within + {cur})
  {
  }

  /** A search that finds nothing has followed every link of every device it visited. */
  lemma {:induction false} EmptySearchIsClosed(G: Graph, target: Name, cur: Name, visited: set<Name>)
    requires Closed(G) && cur in G && cur !in visited && visited <= G.Keys && Dfs(G, target, cur, visited).1 == []
    ensures var v := Dfs(G, target, cur, visited).0;
      forall u :: u in v && u !in visited ==> u in G && u != target && Neighbours(G, u) <= v
    decreases G.Keys - visited, 0, 0
  {
    FewerLeft(G, visited, visited + {cur});
    EmptyLinksAreClosed(G, target, cur, G[cur].links, visited + {cur});
  }

  lemma {:induction false} EmptyLinksAreClosed(G: Graph, target: Name, cur: Name, links: seq<Link>, visited: set<Name>)
    requires Closed(G) && visited <= G.Keys && forall i :: 0 <= i < |links| ==> links[i].to in G
    requires DfsLinks(G, target, cur, links, visited).1 == []
    ensures var v := DfsLinks(G, target, cur, links, visited).0;
      && (forall i :: 0 <= i < |links| ==> links[i].to in v)
      && (forall u :: u in v && u !in visited ==> u in G && u != target && Neighbours(G, u) <= v)
    decreases G.Keys - visited, 1, |links|
  {
    if links == [] {
    } else if links[0].to in visited {
      EmptyLinksAreClosed(G, target, cur, links[1..], visited);
    } else {
      var v := Dfs(G, target, links[0].to, visited).0;
      FewerLeft(G, visited, v);
      EmptySearchIsClosed(G, target, links[0].to, visited);
      EmptyLinksAreClosed(G, target, cur, links[1..], v);
    }
  }

  lemma {:induction false} WalkStaysInside(G: Graph, p: seq<Name>, inside: set<Name>)
    requires IsWalk(G, p) && p[0] in inside && inside <= G.Keys
    requires forall u :: u in inside ==> Neighbours(G, u) <= inside
    ensures p[|p| - 1] in inside
    decreases |p|
  {
    if |p| <= 1 {
    } else {
      WalkStaysInside(G, p[..|p| - 1], inside);
    }
  }

  /** Despite the shared visited set and the early exits, the search finds a path exactly when the
      target is reachable, and what it finds is a simple walk from the source to the target. */
  lemma DfsIsCorrect(G: Graph, source: Name, target: Name)
    requires Closed(G) && source in G
    ensures ReversedPath(G, source, target) != [] <==> Reachable(G, source, target)
    ensures var back := ReversedPath(G, source, target);
      back != [] ==> Simple(back) && WalkFromTo(G, Reversed(back), source, target)
  {
    var (v, back) := Dfs(G, target, source, {});
    DfsFindsPath(G, target, source, {});
    if back == [] {
      EmptySearchIsClosed(G, target, source, {});
      if Reachable(G, source, target) {
        var p :| WalkFromTo(G, p, source, target);
        WalkStaysInside(G, p, v);
        assert false;
      }
    } else {
      var p := Reversed(back);
      forall i | 0 <= i < |p| - 1 ensures p[i + 1] in Neighbours(G, p[i]) {
        assert back[|p| - 2 - i] in Neighbours(G, back[|p| - 2 - i + 1]);
      }
      assert WalkFromTo(G, p, source, target);
    }
  }

  // ---- Which path it finds ----

  /** Some walk from `u` to `v` avoids these devices. */
  ghost predicate ReachableAvoiding(G: Graph, u: Name, v: Name, avoid: set<Name>) {
    exists p :: WalkFromTo(G, p, u, v) && forall k :: 0 <= k < |p| ==> p[k] !in avoid
  }

  /** Everything visited apart from the path so far has been searched in vain. */
  ghost predicate DeadEnds(G: Graph, target: Name, visited: set<Name>, stack: set<Name>) {
    forall u :: u in visited && u !in stack ==> u in G && u != target && Neighbours(G, u) <= visited
  }

  lemma {:induction false} NoWayOut(G: Graph, target: Name, visited: set<Name>, stack: set<Name>, p: seq<Name>, k: nat)
    requires DeadEnds(G, target, visited, stack) && IsWalk(G, p) && p[0] in visited && k < |p|
    requires forall l :: 0 <= l < |p| ==> p[l] !in stack
    ensures p[k] in visited && p[k] != target
  {
    if k == 0 {
    } else {
      NoWayOut(G, target, visited, stack, p, k - 1);
      assert p[k - 1 + 1] in Neighbours(G, p[k - 1]);
    }
  }

  lemma VisitedIsDead(G: Graph, target: Name, visited: set<Name>, stack: set<Name>, u: Name)
    requires DeadEnds(G, target, visited, stack) && u in visited
    ensures !ReachableAvoiding(G, u, target, stack)
  {
    if ReachableAvoiding(G, u, target, stack) {
      var p :| WalkFromTo(G, p, u, target) && forall k :: 0 <= k < |p| ==> p[k] !in stack;
      NoWayOut(G, target, visited, stack, p, |p| - 1);
    }
  }

  /** From no earlier link of `u` can the target be reached without one of these devices. */
  ghost predicate EarlierFail(G: Graph, target: Name, u: Name, next: Name, avoid: set<Name>)
    requires u in G
  {
    forall l :: 0 <= l < Port(G[u].links, next) ==> !ReachableAvoiding(G, G[u].links[l].to, target, avoid)
  }

  function Devices(p: seq<Name>): set<Name> { set x | x in p }

  /** At every device of the path, which is listed backwards, the earlier links fail. */
  ghost predicate FirstLinks(G: Graph, target: Name, back: seq<Name>, stack: set<Name>) {
    forall k: nat {:trigger FirstLinkAt(G, target, back, k, stack)} :: 1 <= k < |back| && back[k] in G ==>
      FirstLinkAt(G, target, back, k, stack)
  }

  ghost predicate FirstLinkAt(G: Graph, target: Name, back: seq<Name>, k: nat, stack: set<Name>)
    requires 1 <= k < |back| && back[k] in G
  {
    EarlierFail(G, target, back[k], back[k - 1], stack + Devices(back[k..]))
  }

  lemma {:induction false} DfsTakesFirst(G: Graph, target: Name, cur: Name, visited: set<Name>, stack: set<Name>)
    requires Closed(G) && cur in G && cur !in visited && visited <= G.Keys
    requires stack <= visited && DeadEnds(G, target, visited, stack)
    ensures FirstLinks(G, target, Dfs(G, target, cur, visited).1, stack)
    decreases G.Keys - visited, 0, 0
  {
    FewerLeft(G, visited, visited + {cur});
    if cur != target {
      DfsLinksTakesFirst(G, target, cur, 0, visited + {cur}, stack);
      assert G[cur].links[0..] == G[cur].links;
    }
  }

  /** The links before `j` have been tried. */
  lemma {:induction false} DfsLinksTakesFirst(G: Graph, target: Name, cur: Name, j: nat, visited: set<Name>,
                                              stack: set<Name>)
    requires Closed(G) && visited <= G.Keys && cur in visited && j <= |G[cur].links|
    requires stack <= visited && DeadEnds(G, target, visited, stack + {cur})
    requires forall l :: 0 <= l < j ==> G[cur].links[l].to in visited
    ensures FirstLinks(G, target, DfsLinks(G, target, cur, G[cur].links[j..], visited).1, stack)
    decreases G.Keys - visited, 1, |G[cur].links| - j
  {
    var links := G[cur].links;
    if j < |links| {
      assert links[j..][1..] == links[j + 1..];
      var next := links[j].to;
      if next in visited {
        DfsLinksTakesFirst(G, target, cur, j + 1, visited, stack);
      } else {
        var (v, path) := Dfs(G, target, next, visited);
        FewerLeft(G, visited, v);
        if path == [] {
          StillDead(G, target, next, visited, stack + {cur});
          DfsLinksTakesFirst(G, target, cur, j + 1, v, stack);
        } else {
          DfsTakesFirst(G, target, next, visited, stack + {cur});
          DfsFindsPath(G, target, next, visited);
          ExtendFirst(G, target, path, cur, j, visited, stack);
        }
      }
    }
  }

  lemma StillDead(G: Graph, target: Name, cur: Name, visited: set<Name>, stack: set<Name>)
    requires Closed(G) && cur in G && cur !in visited && visited <= G.Keys && Dfs(G, target, cur, visited).1 == []
    requires stack <= visited && DeadEnds(G, target, visited, stack)
    ensures DeadEnds(G, target, Dfs(G, target, cur, visited).0, stack)
  {
    EmptySearchIsClosed(G, target, cur, visited);
  }

  lemma LastFirst(G: Graph, target: Name, cur: Name, next: Name, j: nat, visited: set<Name>, stack: set<Name>)
    requires cur in G && j < |G[cur].links| && G[cur].links[j].to == next && DeadEnds(G, target, visited, stack)
    requires forall l :: 0 <= l < j ==> G[cur].links[l].to in visited
    ensures EarlierFail(G, target, cur, next, stack)
  {
    forall l | 0 <= l < Port(G[cur].links, next) ensures !ReachableAvoiding(G, G[cur].links[l].to, target, stack) {
      VisitedIsDead(G, target, visited, stack, G[cur].links[l].to);
    }
  }

  lemma MoreDevices(path: seq<Name>, cur: Name, k: nat, stack: set<Name>)
    requires k <= |path|
    ensures stack + Devices((path + [cur])[k..]) == stack + {cur} + Devices(path[k..])
  {
    assert (path + [cur])[k..] == path[k..] + [cur];
  }

  lemma ExtendInside(G: Graph, target: Name, path: seq<Name>, cur: Name, k: nat, stack: set<Name>)
    requires FirstLinks(G, target, path, stack + {cur}) && 1 <= k < |path| && path[k] in G
    ensures FirstLinkAt(G, target, path + [cur], k, stack)
  {
    MoreDevices(path, cur, k, stack);
    assert FirstLinkAt(G, target, path, k, stack + {cur});
  }

  lemma ExtendFirst(G: Graph, target: Name, path: seq<Name>, cur: Name, j: nat, visited: set<Name>, stack: set<Name>)
    requires cur in G && path != [] && j < |G[cur].links| && G[cur].links[j].to == path[|path| - 1]
    requires DeadEnds(G, target, visited, stack + {cur})
    requires forall l :: 0 <= l < j ==> G[cur].links[l].to in visited
    requires FirstLinks(G, target, path, stack + {cur})
    ensures FirstLinks(G, target, path + [cur], stack)
  {
    var back := path + [cur];
    forall k: nat | 1 <= k < |back| && back[k] in G ensures FirstLinkAt(G, target, back, k, stack) {
      if k < |path| {
        ExtendInside(G, target, path, cur, k, stack);
      } else {
        MoreDevices(path, cur, k, stack);
        assert path[k..] == [] && stack + {cur} + Devices([]) == stack + {cur};
        LastFirst(G, target, cur, path[|path| - 1], j, visited, stack + {cur});
      }
    }
  }

  /** At every device the path found takes the first link from which the target can be reached at all
      without going back to the path so far. This determines the path. */
  lemma PathTakesFirstLinks(G: Graph, source: Name, target: Name, k: nat)
    requires Closed(G) && source in G && 1 <= k < |ReversedPath(G, source, target)|
    ensures var back := ReversedPath(G, source, target);
      && back[k] in G
      && ReachableAvoiding(G, back[k - 1], target, Devices(back[k..]))
      && EarlierFail(G, target, back[k], back[k - 1], Devices(back[k..]))
  {
    var back := ReversedPath(G, source, target);
    DfsFindsPath(G, target, source, {});
    DfsTakesFirst(G, target, source, {}, {});
    assert FirstLinkAt(G, target, back, k, {});
    assert {} + Devices(back[k..]) == Devices(back[k..]);
    RestAvoids(G, back, target, k);
  }

  lemma RestAvoids(G: Graph, back: seq<Name>, target: Name, k: nat)
    requires 1 <= k < |back| && Simple(back) && back[0] == target && forall i :: 0 <= i < |back| ==> back[i] in G
    requires forall i :: 0 <= i < |back| - 1 ==> back[i] in Neighbours(G, back[i + 1])
    ensures ReachableAvoiding(G, back[k - 1], target, Devices(back[k..]))
  {
    var p := Reversed(back[..k]);
    forall i | 0 <= i < |p| - 1 ensures p[i + 1] in Neighbours(G, p[i]) {
      assert back[k - 2 - i] in Neighbours(G, back[k - 2 - i + 1]);
    }
    assert WalkFromTo(G, p, back[k - 1], target);
    forall i | 0 <= i < |p| ensures p[i] !in Devices(back[k..]) {
      assert p[i] == back[k - 1 - i];
    }
  }

  /** The ends of a found path; it has at least one link unless the source is the target. */
  lemma PathEnds(G: Graph, source: Name, target: Name)
    requires Closed(G) && source in G && Reachable(G, source, target)
    ensures var back := ReversedPath(G, source, target);
      && back != [] && back[0] == target && back[|back| - 1] == source
      && (|back| == 1 <==> source == target)
      && (|back| >= 2 ==> back[|back| - 2] in Neighbours(G, source))
  {
    DfsIsCorrect(G, source, target);
    var back := ReversedPath(G, source, target);
    var p := Reversed(back);
    assert p[0] == back[|back| - 1] && p[|p| - 1] == back[0];
    if |back| >= 2 {
      assert p[1] == back[|back| - 2];
    }
  }

  /** The port of the first link to the second device of the found path. */
  function PortTowards(G: Graph, source: Name, target: Name): nat
    requires Closed(G) && source in G && |ReversedPath(G, source, target)| >= 2
  {
    var back := ReversedPath(G, source, target);
    Port(G[source].links, back[|back| - 2])
  }

  /** The port through which the found path leaves the source. The result is None where the code
      panics: the target is the source itself, or not reachable. */
  method FindPortLeadingToDevice(G: Graph, source: Name, target: Name) returns (port: Option<nat>)
    requires Closed(G) && source in G
    ensures port.Some? <==> source != target && Reachable(G, source, target)
    ensures port.Some? ==> port.value < |G[source].links|
    ensures port.Some? ==> |ReversedPath(G, source, target)| >= 2 && port.value == PortTowards(G, source, target)
  {
    var reversedPath := RunDfs(G, source, target);
    DfsIsCorrect(G, source, target);
    if Reachable(G, source, target) {
      PathEnds(G, source, target);
    }
    if |reversedPath| < 2 {
      return None;
    }
    var successor := reversedPath[|reversedPath| - 2];
    var links := G[source].links;
    PortOfNeighbour(G, source, successor);
    for i := 0 to |links|
      invariant forall j :: 0 <= j < i ==> links[j].to != successor
    {
      if links[i].to == successor {
        assert Port(links, successor) == i;
        return Some(i);
      }
    }
    assert false;
  }
}
