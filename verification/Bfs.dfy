/** Breadth-first search, shortest paths and next hops. */
module BreadthFirst {
  import opened Wrappers
  import opened Topology

  // ---- The search as a function ----

  /** The state of the search: discovered devices with their parent and their depth, and the queue. */
  datatype Search = Search(queue: seq<Name>, parents: map<Name, Option<Name>>, depth: map<Name, nat>)

  ghost predicate Sound(G: Graph, s: Search) {
    && s.depth.Keys == s.parents.Keys <= G.Keys
    && (forall i :: 0 <= i < |s.queue| ==> s.queue[i] in s.parents)
  }

  /** Discover the targets of `links`, which are links of `cur`. */
  function Visit(G: Graph, links: seq<Link>, cur: Name, s: Search): (s': Search)
    requires Sound(G, s) && cur in s.depth && forall i :: 0 <= i < |links| ==> links[i].to in G
    ensures Sound(G, s') && s.parents.Keys <= s'.parents.Keys
    ensures s'.parents.Keys == s.parents.Keys ==> s' == s
  {
    if links == [] then s
    else if links[0].to in s.parents then Visit(G, links[1..], cur, s)
    else Visit(G, links[1..], cur, Discover(G, links[0].to, cur, s))
  }

  function Discover(G: Graph, v: Name, cur: Name, s: Search): (s': Search)
    requires Sound(G, s) && cur in s.depth && v in G && v !in s.parents
    ensures Sound(G, s') && s'.parents.Keys == s.parents.Keys + {v}
  {
    Search(s.queue + [v], s.parents[v := Some(cur)], s.depth[v := s.depth[cur] + 1])
  }

  function Explore(G: Graph, s: Search): (s': Search)
    requires Closed(G) && Sound(G, s)
    ensures Sound(G, s')
    decreases G.Keys - s.parents.Keys, |s.queue|
  {
    if s.queue == [] then s
    else
      var rest := s.(queue := s.queue[1..]);
      var s' := Visit(G, G[s.queue[0]].links, s.queue[0], rest);
      FewerLeft(G.Keys, s.parents.Keys, s'.parents.Keys);
      Explore(G, s')
  }

  lemma FewerLeft(all: set<Name>, before: set<Name>, after: set<Name>)
    requires before <= after <= all
    ensures after != before ==> all - after < all - before
    ensures after == before ==> all - after == all - before
  {
  }

  function Start(source: Name): Search {
    Search([source], map[source := None], map[source := 0])
  }

  function Tree(G: Graph, source: Name): (s: Search)
    requires Closed(G) && source in G
    ensures Sound(G, s)
  {
    Explore(G, Start(source))
  }

  // ---- The search as a loop ----

  method Bfs(G: Graph, source: Name) returns (parents: map<Name, Option<Name>>)
    requires Closed(G) && source in G
    ensures parents == Tree(G, source).parents
  {
    var visited := {source};
    var queue := [source];
    parents := map[source := None];
    ghost var s := Start(source);
    while |queue| > 0
      invariant Sound(G, s) && s.queue == queue && s.parents == parents && visited == parents.Keys
      invariant Explore(G, s) == Tree(G, source)
      decreases G.Keys - parents.Keys, |queue|
    {
      var cur := queue[0];
      ghost var before := s;
      visited, queue, parents, s := VisitLinks(G, cur, visited, queue[1..], parents, s.(queue := queue[1..]));
      FewerLeft(G.Keys, before.parents.Keys, parents.Keys);
    }
  }

  /** The inner loop: discover the devices that `cur` links to. */
  method VisitLinks(G: Graph, cur: Name, visited0: set<Name>, queue0: seq<Name>, parents0: map<Name, Option<Name>>,
                    ghost s0: Search)
    returns (visited: set<Name>, queue: seq<Name>, parents: map<Name, Option<Name>>, ghost s: Search)
    requires Closed(G) && Sound(G, s0) && cur in s0.parents
    requires s0.queue == queue0 && s0.parents == parents0 && visited0 == parents0.Keys
    ensures s == Visit(G, G[cur].links, cur, s0)
    ensures s.queue == queue && s.parents == parents && visited == parents.Keys
  {
    visited, queue, parents, s := visited0, queue0, parents0, s0;
    var links := G[cur].links;
    for i := 0 to |links|
      invariant Sound(G, s) && cur in s.parents
      invariant s.queue == queue && s.parents == parents && visited == parents.Keys
      invariant Visit(G, links[i..], cur, s) == Visit(G, links, cur, s0)
    {
      assert links[i..][1..] == links[i + 1..];
      if links[i].to !in visited {
        visited := visited + {links[i].to};
        queue := queue + [links[i].to];
        parents := parents[links[i].to := Some(cur)];
        s := Discover(G, links[i].to, cur, s);
      }
    }
  }

  // ---- The search finds shortest paths ----

  /** The discovered part is a tree with correct depths, whose depths the links cannot shorten. */
  ghost predicate GrowingTree(G: Graph, source: Name, s: Search) {
    && Sound(G, s) && source in s.parents && s.parents[source] == None && s.depth[source] == 0
    && (forall v {:trigger ParentOk(G, s, v)} :: v in s.parents && v != source ==> ParentOk(G, s, v))
  }

  /** The parent is one level up and has a link down. */
  ghost predicate ParentOk(G: Graph, s: Search, v: Name)
    requires Sound(G, s) && v in s.parents
  {
    && s.parents[v].Some? && s.parents[v].value in s.parents
    && v in Neighbours(G, s.parents[v].value)
    && s.depth[v] == s.depth[s.parents[v].value] + 1
  }

  /** No link leads from `u` out of the tree or more than one level down. */
  ghost predicate Settled(G: Graph, s: Search, u: Name)
    requires Sound(G, s) && u in s.parents
  {
    forall v :: v in Neighbours(G, u) ==> v in s.parents && s.depth[v] <= s.depth[u] + 1
  }

  ghost predicate QueueOrdered(s: Search, bound: nat)
    requires forall i :: 0 <= i < |s.queue| ==> s.queue[i] in s.depth
  {
    && (forall i, j :: 0 <= i < j < |s.queue| ==> s.depth[s.queue[i]] <= s.depth[s.queue[j]])
    && (forall v :: v in s.depth ==> s.depth[v] <= bound)
  }

  ghost predicate SearchInv(G: Graph, source: Name, s: Search) {
    && GrowingTree(G, source, s)
    && (s.queue != [] ==> QueueOrdered(s, s.depth[s.queue[0]] + 1))
    && (forall u :: u in s.parents && u !in s.queue ==> Settled(G, s, u))
  }

  /** What holds while the links of `cur` are visited. */
  ghost predicate VisitInv(G: Graph, source: Name, s: Search, cur: Name) {
    && GrowingTree(G, source, s) && cur in s.depth
    && QueueOrdered(s, s.depth[cur] + 1)
    && (forall i :: 0 <= i < |s.queue| ==> s.depth[cur] <= s.depth[s.queue[i]])
    && (forall u :: u in s.parents && u !in s.queue && u != cur ==> Settled(G, s, u))
  }

  lemma DiscoverKeepsInv(G: Graph, source: Name, v: Name, cur: Name, s: Search)
    requires Closed(G) && VisitInv(G, source, s, cur) && v in G && v !in s.parents && v in Neighbours(G, cur)
    ensures VisitInv(G, source, Discover(G, v, cur, s), cur)
  {
    var s' := Discover(G, v, cur, s);
    assert s'.queue[|s.queue|] == v;
    forall u | u in s'.parents && u != source ensures ParentOk(G, s', u) {
      assert u != v ==> ParentOk(G, s, u);
    }
    forall u | u in s'.parents && u !in s'.queue && u != cur ensures Settled(G, s', u) {
      assert u !in s.queue;
      assert Settled(G, s, u);
    }
  }

  lemma {:induction false} VisitKeepsInv(G: Graph, source: Name, links: seq<Link>, cur: Name, s: Search)
    requires Closed(G) && VisitInv(G, source, s, cur)
    requires forall i :: 0 <= i < |links| ==> links[i].to in G && links[i].to in Neighbours(G, cur)
    ensures var s' := Visit(G, links, cur, s);
      && VisitInv(G, source, s', cur)
      && (forall i :: 0 <= i < |links| ==> links[i].to in s'.parents)
      && (forall v :: v in s.depth ==> v in s'.depth && s'.depth[v] == s.depth[v])
    decreases |links|
  {
    if links == [] {
    } else {
      var next := VisitFirst(G, source, links, cur, s);
      VisitKeepsInv(G, source, links[1..], cur, next);
      var s' := Visit(G, links[1..], cur, next);
      forall i | 0 <= i < |links| ensures links[i].to in s'.parents {
        if i > 0 {
          assert links[i] == links[1..][i - 1];
        }
      }
    }
  }

  /** The state after the first link. */
  lemma VisitFirst(G: Graph, source: Name, links: seq<Link>, cur: Name, s: Search) returns (next: Search)
    requires Closed(G) && VisitInv(G, source, s, cur) && links != []
    requires forall i :: 0 <= i < |links| ==> links[i].to in G && links[i].to in Neighbours(G, cur)
    ensures VisitInv(G, source, next, cur) && links[0].to in next.parents
    ensures forall v :: v in s.depth ==> v in next.depth && next.depth[v] == s.depth[v]
    ensures Visit(G, links, cur, s) == Visit(G, links[1..], cur, next)
  {
    next := s;
    if links[0].to !in s.parents {
      DiscoverKeepsInv(G, source, links[0].to, cur, s);
      next := Discover(G, links[0].to, cur, s);
    }
  }

  lemma DequeueKeepsParents(G: Graph, source: Name, s: Search)
    requires Closed(G) && SearchInv(G, source, s) && s.queue != []
    ensures forall u :: u in s.parents && u != source ==> ParentOk(G, s.(queue := s.queue[1..]), u)
    ensures forall u :: u in s.parents && u !in s.queue ==> Settled(G, s.(queue := s.queue[1..]), u)
  {
    var rest := s.(queue := s.queue[1..]);
    forall u | u in s.parents && u != source ensures ParentOk(G, rest, u) {
      assert ParentOk(G, s, u);
    }
    forall u | u in s.parents && u !in s.queue ensures Settled(G, rest, u) {
      assert Settled(G, s, u);
    }
  }

  lemma DequeueKeepsInv(G: Graph, source: Name, s: Search)
    requires Closed(G) && SearchInv(G, source, s) && s.queue != []
    ensures VisitInv(G, source, s.(queue := s.queue[1..]), s.queue[0])
  {
    var rest := s.(queue := s.queue[1..]);
    DequeueKeepsParents(G, source, s);
    assert forall i :: 0 <= i < |rest.queue| ==> rest.queue[i] == s.queue[i + 1];
    forall u | u in s.parents && u !in rest.queue && u != s.queue[0] ensures Settled(G, rest, u) {
      assert u !in s.queue;
    }
  }

  lemma VisitedSettles(G: Graph, source: Name, s: Search, cur: Name)
    requires Closed(G) && VisitInv(G, source, s, cur) && forall v :: v in Neighbours(G, cur) ==> v in s.parents
    ensures SearchInv(G, source, s)
  {
    assert Settled(G, s, cur);
  }

  lemma ExploreStep(G: Graph, source: Name, s: Search)
    requires Closed(G) && SearchInv(G, source, s) && s.queue != []
    ensures SearchInv(G, source, Visit(G, G[s.queue[0]].links, s.queue[0], s.(queue := s.queue[1..])))
  {
    DequeueKeepsInv(G, source, s);
    VisitKeepsInv(G, source, G[s.queue[0]].links, s.queue[0], s.(queue := s.queue[1..]));
    VisitedSettles(G, source, Visit(G, G[s.queue[0]].links, s.queue[0], s.(queue := s.queue[1..])), s.queue[0]);
  }

  lemma {:induction false} ExploreKeepsInv(G: Graph, source: Name, s: Search)
    requires Closed(G) && SearchInv(G, source, s)
    ensures SearchInv(G, source, Explore(G, s)) && Explore(G, s).queue == []
    decreases G.Keys - s.parents.Keys, |s.queue|
  {
    if s.queue == [] {
    } else {
      ExploreStep(G, source, s);
      var s' := Visit(G, G[s.queue[0]].links, s.queue[0], s.(queue := s.queue[1..]));
      FewerLeft(G.Keys, s.parents.Keys, s'.parents.Keys);
      ExploreKeepsInv(G, source, s');
    }
  }

  lemma TreeInv(G: Graph, source: Name)
    requires Closed(G) && source in G
    ensures GrowingTree(G, source, Tree(G, source))
    ensures forall u :: u in Tree(G, source).parents ==> Settled(G, Tree(G, source), u)
  {
    ExploreKeepsInv(G, source, Start(source));
  }

  /** Every walk ends in the tree, and is no shorter than the depth of its end. */
  lemma {:induction false} WalkAtLeastDepth(G: Graph, source: Name, p: seq<Name>)
    requires Closed(G) && source in G && IsWalk(G, p) && p[0] == source
    ensures var t := Tree(G, source); p[|p| - 1] in t.depth && t.depth[p[|p| - 1]] <= |p| - 1
    decreases |p|
  {
    TreeInv(G, source);
    if |p| <= 1 {
    } else {
      WalkAtLeastDepth(G, source, p[..|p| - 1]);
      assert Settled(G, Tree(G, source), p[|p| - 2]);
    }
  }

  lemma ParentInTree(G: Graph, source: Name, v: Name)
    requires Closed(G) && source in G && v in Tree(G, source).parents
    ensures var t := Tree(G, source);
      if v == source then t.parents[v] == None && t.depth[v] == 0 else ParentOk(G, t, v)
  {
    TreeInv(G, source);
    assert v != source ==> ParentOk(G, Tree(G, source), v);
  }

  /** The path that climbing the parents of `v` gives, from the source down to `v`. */
  function PathTo(G: Graph, source: Name, v: Name): seq<Name>
    requires Closed(G) && source in G && v in Tree(G, source).parents
    decreases Tree(G, source).depth[v]
  {
    ParentInTree(G, source, v);
    var t := Tree(G, source);
    match t.parents[v]
    case None => [v]
    case Some(parent) => PathTo(G, source, parent) + [v]
  }

  /** The climbed path is a walk from the source, and no walk is shorter. */
  lemma {:induction false} PathToIsShortest(G: Graph, source: Name, v: Name)
    requires Closed(G) && source in G && v in Tree(G, source).parents
    ensures WalkFromTo(G, PathTo(G, source, v), source, v)
    ensures |PathTo(G, source, v)| == Tree(G, source).depth[v] + 1
    ensures IsDist(G, source, v, Tree(G, source).depth[v])
    decreases Tree(G, source).depth[v]
  {
    ParentInTree(G, source, v);
    var t := Tree(G, source);
    if t.parents[v].None? {
    } else {
      PathToIsShortest(G, source, t.parents[v].value);
    }
    forall p | WalkFromTo(G, p, source, v) ensures |p| >= t.depth[v] + 1 {
      WalkAtLeastDepth(G, source, p);
    }
  }

  lemma TreeSpansReachable(G: Graph, source: Name, v: Name)
    requires Closed(G) && source in G
    ensures v in Tree(G, source).parents <==> Reachable(G, source, v)
  {
    if v in Tree(G, source).parents {
      PathToIsShortest(G, source, v);
    }
    if Reachable(G, source, v) {
      var p :| WalkFromTo(G, p, source, v);
      WalkAtLeastDepth(G, source, p);
    }
  }

  // ---- Next hops ----

  /** The second device on the climbed path. */
  function NextHop(G: Graph, source: Name, target: Name): Name
    requires Closed(G) && source in G && target in Tree(G, source).parents && target != source
  {
    PathToIsShortest(G, source, target);
    PathTo(G, source, target)[1]
  }

  method BfsPathFind(G: Graph, source: Name, target: Name) returns (path: seq<Name>)
    requires Closed(G) && source in G && Reachable(G, source, target)
    ensures target in Tree(G, source).parents && path == PathTo(G, source, target)
  {
    TreeSpansReachable(G, source, target);
    var parents := Bfs(G, source);
    ghost var depth := Tree(G, source).depth;
    ghost var paths := map v | v in parents :: PathTo(G, source, v);
    forall v | v in parents ensures RightPath(parents, depth, paths, v) {
      ParentInTree(G, source, v);
    }
    path := Climb(parents, target, depth, paths);
  }

  ghost predicate RightPath(parents: map<Name, Option<Name>>, depth: map<Name, nat>, paths: map<Name, seq<Name>>,
                            v: Name)
    requires v in parents && depth.Keys == paths.Keys == parents.Keys
  {
    match parents[v]
    case None => paths[v] == [v]
    case Some(p) => p in parents && depth[p] < depth[v] && paths[v] == paths[p] + [v]
  }

  /** The loop that climbs from the target to the root, and the final reversal. */
  method Climb(parents: map<Name, Option<Name>>, target: Name, ghost depth: map<Name, nat>,
               ghost paths: map<Name, seq<Name>>)
    returns (path: seq<Name>)
    requires target in parents && depth.Keys == paths.Keys == parents.Keys
    requires forall v {:trigger RightPath(parents, depth, paths, v)} :: v in parents ==>
      RightPath(parents, depth, paths, v)
    ensures path == paths[target]
  {
    var reversed: seq<Name> := [];
    var cur := Some(target);
    while cur.Some?
      invariant cur.Some? ==> cur.value in parents
      invariant paths[target] == (if cur.Some? then paths[cur.value] else []) + Reversed(reversed)
      decreases if cur.Some? then 1 + depth[cur.value] else 0
    {
      assert RightPath(parents, depth, paths, cur.value);
      ClimbStep(if parents[cur.value].Some? then paths[parents[cur.value].value] else [], cur.value, reversed);
      reversed := reversed + [cur.value];
      cur := parents[cur.value];
    }
    path := Reversed(reversed);
  }

  lemma ClimbStep(above: seq<Name>, v: Name, reversed: seq<Name>)
    ensures (above + [v]) + Reversed(reversed) == above + Reversed(reversed + [v])
    ensures above == [] ==> [v] + Reversed(reversed) == above + Reversed(reversed + [v])
  {
    assert Reversed(reversed + [v]) == [v] + Reversed(reversed);
  }

  method FindNextHop(G: Graph, source: Name, target: Name) returns (hop: Name)
    requires Closed(G) && source in G && target != source && Reachable(G, source, target)
    ensures target in Tree(G, source).parents && hop == NextHop(G, source, target)
  {
    var path := BfsPathFind(G, source, target);
    PathToIsShortest(G, source, target);
    hop := path[1];
  }

  /** A device deeper than the first level has the next hop of its parent. */
  lemma HopOfParent(G: Graph, source: Name, v: Name)
    requires Closed(G) && source in G && v in Tree(G, source).parents && v != source
    ensures var parent := Tree(G, source).parents[v];
      && parent.Some? && parent.value in Tree(G, source).parents
      && NextHop(G, source, v) == if parent.value == source then v else NextHop(G, source, parent.value)
  {
    ParentInTree(G, source, v);
    var parent := Tree(G, source).parents[v].value;
    PathToIsShortest(G, source, v);
    PathToIsShortest(G, source, parent);
    assert PathTo(G, source, v) == PathTo(G, source, parent) + [v];
  }

  /** The memoised climb: for every device the hop that FindNextHop gives, in whatever order the map
      of devices is iterated. */
  method GetNextHopsMap(G: Graph, source: Name) returns (res: map<Name, Name>)
    requires Closed(G) && Connected(G) && source in G
    ensures res.Keys == G.Keys && res[source] == source
    ensures forall v :: v in G && v != source ==>
      v in Tree(G, source).parents && res[v] == NextHop(G, source, v)
  {
    var parents := Bfs(G, source);
    ghost var depth := Tree(G, source).depth;
    ghost var hops := HopTable(G, source);
    forall v | v in hops ensures RightHop(parents, depth, source, hops, v) {
      HopTableIsRight(G, source, v);
    }
    res := map[source := source];
    var todo := G.Keys;
    while todo != {}
      invariant todo <= G.Keys && source in res && res.Keys <= G.Keys <= todo + res.Keys
      invariant res[source] == source && Agree(res, source, hops)
      decreases todo
    {
      var devName :| devName in todo;
      todo := todo - {devName};
      if devName !in res {
        var path, nextHop := ClimbToHop(parents, source, res, devName, depth, hops);
        res := Remember(res, path, nextHop, source, hops);
      }
    }
    forall v | v in G && v != source ensures v in Tree(G, source).parents {
      AllDiscovered(G, source, v);
    }
  }

  lemma AllDiscovered(G: Graph, source: Name, v: Name)
    requires Closed(G) && Connected(G) && source in G && v in G
    ensures v in Tree(G, source).parents
  {
    assert Reachable(G, source, v);
    TreeSpansReachable(G, source, v);
  }

  ghost function HopTable(G: Graph, source: Name): map<Name, Name>
    requires Closed(G) && Connected(G) && source in G
  {
    map v | v in G && v != source :: (AllDiscovered(G, source, v); NextHop(G, source, v))
  }

  /** The table is right for `v` and follows from the parent of `v`. */
  ghost predicate RightHop(parents: map<Name, Option<Name>>, depth: map<Name, nat>, source: Name, hops: map<Name, Name>,
                           v: Name)
  {
    && v in hops && v in parents && parents[v].Some? && v in depth
    && var p := parents[v].value;
       p in parents && p in depth && depth[p] < depth[v]
       && (if p == source then hops[v] == v else p in hops && hops[v] == hops[p])
  }

  lemma HopTableIsRight(G: Graph, source: Name, v: Name)
    requires Closed(G) && Connected(G) && source in G && v in G && v != source
    ensures var t := Tree(G, source); RightHop(t.parents, t.depth, source, HopTable(G, source), v)
  {
    AllDiscovered(G, source, v);
    ParentInTree(G, source, v);
    HopOfParent(G, source, v);
  }

  ghost predicate Agree(res: map<Name, Name>, source: Name, hops: map<Name, Name>) {
    forall v :: v in res && v != source ==> v in hops && res[v] == hops[v]
  }

  /** Record the hop for every device of the climbed path. */
  method Remember(res0: map<Name, Name>, path: seq<Name>, nextHop: Name, source: Name, ghost hops: map<Name, Name>)
    returns (res: map<Name, Name>)
    requires source !in hops && Agree(res0, source, hops)
    requires forall i :: 0 <= i < |path| ==> path[i] in hops && hops[path[i]] == nextHop
    ensures Agree(res, source, hops) && res0.Keys <= res.Keys <= res0.Keys + hops.Keys
    ensures source in res0 ==> res[source] == res0[source]
    ensures forall i :: 0 <= i < |path| ==> path[i] in res
  {
    res := res0;
    for i := 0 to |path|
      invariant Agree(res, source, hops) && res0.Keys <= res.Keys <= res0.Keys + hops.Keys
      invariant source in res0 ==> res[source] == res0[source]
      invariant forall j :: 0 <= j < i ==> path[j] in res
    {
      res := res[path[i] := nextHop];
    }
  }

  /** Climb from `devName` until the parent is the source or the hop is already known. */
  method ClimbToHop(parents: map<Name, Option<Name>>, source: Name, res: map<Name, Name>, devName: Name,
                    ghost depth: map<Name, nat>, ghost hops: map<Name, Name>)
    returns (path: seq<Name>, nextHop: Name)
    requires devName in hops && source !in hops
    requires forall v :: v in hops ==> RightHop(parents, depth, source, hops, v)
    requires Agree(res, source, hops)
    ensures devName in path
    ensures forall i :: 0 <= i < |path| ==> path[i] in hops && hops[path[i]] == nextHop
  {
    var cur := devName;
    path := [cur];
    while true
      invariant cur in hops && devName in path
      invariant forall i :: 0 <= i < |path| ==> path[i] in hops && hops[path[i]] == hops[cur]
      decreases depth[cur]
    {
      assert RightHop(parents, depth, source, hops, cur);
      var parent := parents[cur].value;
      if parent == source {
        nextHop := cur;
        return;
      }
      if cur in res {
        nextHop := res[cur];
        return;
      }
      cur := parent;
      path := path + [cur];
    }
  }

  // ---- Following next hops ----

  /** The second device of a shortest walk is one link closer to the end. */
  lemma RestIsShortest(G: Graph, path: seq<Name>, target: Name)
    requires |path| > 1 && WalkFromTo(G, path, path[0], target) && IsDist(G, path[0], target, |path| - 1)
    ensures IsDist(G, path[1], target, |path| - 2)
  {
    assert path[1] in Neighbours(G, path[0]);
    assert WalkFromTo(G, path[1..], path[1], target);
    forall p | WalkFromTo(G, p, path[1], target) ensures |p| >= |path| - 1 {
      assert WalkFromTo(G, [path[0]] + p, path[0], target);
    }
  }

  /** The next hop is a neighbour, and one link closer to the target. */
  lemma NextHopIsCloser(G: Graph, u: Name, target: Name, n: nat)
    requires Closed(G) && u in G && u != target && IsDist(G, u, target, n)
    ensures target in Tree(G, u).parents && n > 0
    ensures NextHop(G, u, target) in Neighbours(G, u)
    ensures IsDist(G, NextHop(G, u, target), target, n - 1)
  {
    TreeSpansReachable(G, u, target);
    PathToIsShortest(G, u, target);
    var path := PathTo(G, u, target);
    var q :| WalkFromTo(G, q, u, target) && |q| == n + 1;
    assert |path| == n + 1;
    assert path[1] in Neighbours(G, path[0]);
    RestIsShortest(G, path, target);
  }

  /** One next-hop map per device, each as GetNextHopsMap returns it. */
  ghost predicate HopMaps(G: Graph, maps: map<Name, map<Name, Name>>)
    requires Closed(G)
  {
    maps.Keys == G.Keys && forall u {:trigger IsHopMap(G, u, maps[u])} :: u in G ==> IsHopMap(G, u, maps[u])
  }

  ghost predicate IsHopMap(G: Graph, u: Name, hops: map<Name, Name>)
    requires Closed(G) && u in G
  {
    && hops.Keys == G.Keys && hops[u] == u
    && forall v {:trigger hops[v]} :: v in G && v != u ==> v in Tree(G, u).parents && hops[v] == NextHop(G, u, v)
  }

  /** Where a packet for `target` is after `k` hops, when each device forwards it by its own map. */
  function Forwarded(maps: map<Name, map<Name, Name>>, u: Name, target: Name, k: nat): Name
    decreases k
  {
    if k == 0 || u == target || u !in maps || target !in maps[u] then u
    else Forwarded(maps, maps[u][target], target, k - 1)
  }

  lemma ZeroDistance(G: Graph, u: Name, target: Name, n: nat)
    requires u in G && IsDist(G, u, target, n)
    ensures n == 0 <==> u == target
  {
    var p :| WalkFromTo(G, p, u, target) && |p| == n + 1;
    if u == target {
      assert WalkFromTo(G, [u], u, target);
    }
  }

  lemma HopTowards(G: Graph, maps: map<Name, map<Name, Name>>, u: Name, target: Name, n: nat, k: nat)
    returns (hop: Name)
    requires Closed(G) && HopMaps(G, maps) && u in G && target in G && IsDist(G, u, target, n + 1) && k > 0
    ensures u != target && u in maps && target in maps[u] && hop == maps[u][target] && hop in G
      && IsDist(G, hop, target, n)
    ensures Forwarded(maps, u, target, k) == Forwarded(maps, hop, target, k - 1)
  {
    ZeroDistance(G, u, target, n + 1);
    assert IsHopMap(G, u, maps[u]);
    NextHopIsCloser(G, u, target, n + 1);
    hop := maps[u][target];
  }

  lemma {:induction false} HopsCountDown(G: Graph, maps: map<Name, map<Name, Name>>, u: Name, target: Name, k: nat,
                                         left: nat)
    requires Closed(G) && HopMaps(G, maps) && u in G && target in G && IsDist(G, u, target, left + k)
    ensures Forwarded(maps, u, target, k) in G
    ensures IsDist(G, Forwarded(maps, u, target, k), target, left)
    decreases k
  {
    if k == 0 {
    } else {
      var hop := HopTowards(G, maps, u, target, left + (k - 1), k);
      HopsCountDown(G, maps, hop, target, k - 1, left);
    }
  }

  /** Forwarding brings a packet one link closer with every hop, so it visits no device twice and
      arrives after exactly as many hops as the distance. */
  lemma ForwardingArrives(G: Graph, maps: map<Name, map<Name, Name>>, u: Name, target: Name, n: nat, k: nat)
    requires Closed(G) && HopMaps(G, maps) && u in G && target in G && IsDist(G, u, target, n) && k <= n
    ensures Forwarded(maps, u, target, k) in G
    ensures IsDist(G, Forwarded(maps, u, target, k), target, n - k)
    ensures Forwarded(maps, u, target, k) == target <==> k == n
  {
    HopsCountDown(G, maps, u, target, k, n - k);
    ZeroDistance(G, Forwarded(maps, u, target, k), target, n - k);
  }
}
