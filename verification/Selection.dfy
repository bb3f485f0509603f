/** Choosing the source and the sink of a telemetry path. */
module Selection {
  import opened Topology
  import opened DepthFirst

  /** The devices that are switches running a program that implements the telemetry interface. */
  function Compatible(G: Graph, programs: set<string>): (C: set<Name>)
    ensures C <= G.Keys
    ensures forall n :: n in C ==> G[n].kind.IncSwitch? && G[n].kind.program in programs
  {
    set n | n in G && G[n].kind.IncSwitch? && G[n].kind.program in programs
  }

  /** `i` and `j` are the indices of the source and the sink on the path, which is listed from the target
      back to the source device. */
  datatype Choice = NotFound | Found(i: nat, j: nat)

  function Highest(back: seq<Name>, C: set<Name>, i: int): (h: int)
    requires i < |back|
    ensures -1 <= h && (i >= 0 ==> h <= i) && (i < 0 ==> h == -1)
    ensures h >= 0 ==> back[h] in C
    ensures forall k :: h < k <= i && 0 <= k ==> back[k] !in C
    decreases i + 1
  {
    if i < 0 then -1 else if back[i] in C then i else Highest(back, C, i - 1)
  }

  function Lowest(back: seq<Name>, C: set<Name>, j: nat, i: nat): (l: nat)
    requires i < |back|
    ensures j <= l && (j <= i ==> l <= i + 1) && (j > i ==> l == j)
    ensures l <= i ==> back[l] in C
    ensures forall k :: j <= k < l && k <= i ==> back[k] !in C
    decreases i + 1 - j
  {
    if j > i || back[j] in C then j else Lowest(back, C, j + 1, i)
  }

  function Choose(back: seq<Name>, C: set<Name>): Choice
    requires |back| >= 2
  {
    var i := Highest(back, C, |back| - 2);
    if i < 0 then NotFound
    else
      var j := Lowest(back, C, 1, i);
      if j == i then NotFound else Found(i, j)
  }

  function Between(back: seq<Name>, C: set<Name>, i: nat, j: nat): set<Name>
    requires i <= |back|
  {
    set k | j < k < i && back[k] in C :: back[k]
  }

  /** The search along the path of one pair. Nothing is found between a device and itself; a pair
      without a path, for which the code panics, is excluded. */
  method FindSourceSinkEdgesAndFillTransit(G: Graph, C: set<Name>, sourceDevice: Name, targetDevice: Name,
                                           transits0: set<Name>)
    returns (reversedPath: seq<Name>, choice: Choice, transits: set<Name>)
    requires Closed(G) && sourceDevice in G && Reachable(G, sourceDevice, targetDevice)
    ensures sourceDevice == targetDevice ==> choice == NotFound
    ensures sourceDevice != targetDevice ==>
      && reversedPath == ReversedPath(G, sourceDevice, targetDevice) && |reversedPath| >= 2
      && choice == Choose(reversedPath, C)
    ensures choice.NotFound? ==> transits == transits0
    ensures choice.Found? ==>
      choice.i <= |reversedPath| && transits == transits0 + Between(reversedPath, C, choice.i, choice.j)
  {
    transits := transits0;
    if sourceDevice == targetDevice {
      return [], NotFound, transits;
    }
    reversedPath := RunDfs(G, sourceDevice, targetDevice);
    PathEnds(G, sourceDevice, targetDevice);
    choice := ScanPath(reversedPath, C);
    if choice.Found? {
      transits := FillTransits(reversedPath, C, choice.i, choice.j, transits);
    }
  }

  /** The two loops that look for the source from the sender's end and for the sink from the receiver's. */
  method ScanPath(back: seq<Name>, C: set<Name>) returns (choice: Choice)
    requires |back| >= 2
    ensures choice == Choose(back, C)
    ensures choice.Found? ==> choice.i < |back|
  {
    var i := |back| - 2;
    while i >= 0 && back[i] !in C
      invariant -1 <= i <= |back| - 2
      invariant Highest(back, C, |back| - 2) == Highest(back, C, i)
    {
      i := i - 1;
    }
    if i < 0 {
      return NotFound;
    }
    var j := 1;
    while j <= i && back[j] !in C
      invariant 1 <= j && (j <= i + 1 || j == 1)
      invariant Lowest(back, C, 1, i) == Lowest(back, C, j, i)
    {
      j := j + 1;
    }
    return if j == i then NotFound else Found(i, j);
  }

  method FillTransits(back: seq<Name>, C: set<Name>, i: nat, j: nat, transits0: set<Name>) returns (transits: set<Name>)
    requires i < |back|
    ensures transits == transits0 + Between(back, C, i, j)
  {
    transits := transits0;
    var k := j + 1;
    while k < i
      invariant j < k && (k <= i || k == j + 1)
      invariant transits == transits0 + Between(back, C, if k <= i then k else i, j)
    {
      if back[k] in C {
        transits := transits + {back[k]};
      }
      k := k + 1;
    }
  }

  // ---- What is chosen ----

  /** A compatible device strictly between the ends of the path. */
  predicate InteriorAt(back: seq<Name>, C: set<Name>, k: int) {
    0 < k < |back| - 1 && back[k] in C
  }

  /** With a target that is not compatible, a choice is made exactly if the interior of the path has two
      compatible devices. The source is the one nearest the sender, the sink the one nearest the
      receiver, and every other compatible interior device is filled in as a transit. */
  lemma ChoiceIsNearest(back: seq<Name>, C: set<Name>)
    requires |back| >= 2 && back[0] !in C
    ensures Choose(back, C).Found? <==> exists k, l :: k < l && InteriorAt(back, C, k) && InteriorAt(back, C, l)
    ensures Choose(back, C).Found? ==>
      var i, j := Choose(back, C).i, Choose(back, C).j;
      && j < i && InteriorAt(back, C, i) && InteriorAt(back, C, j)
      && (forall k :: InteriorAt(back, C, k) ==> j <= k <= i && (k == i || k == j || back[k] in Between(back, C, i, j)))
      && Between(back, C, i, j) <= C
  {
    var i := Highest(back, C, |back| - 2);
    if i >= 0 {
      var j := Lowest(back, C, 1, i);
      forall k | InteriorAt(back, C, k) ensures j <= k <= i {
      }
      if j != i {
        assert InteriorAt(back, C, j) && InteriorAt(back, C, i);
      }
    } else {
      forall k ensures !InteriorAt(back, C, k) {
      }
    }
  }

  /** In general a choice is made also when the target is compatible and nothing between is: then the
      target itself becomes the source and its neighbour on the path, compatible or not, the sink. */
  lemma WhenChosen(back: seq<Name>, C: set<Name>)
    requires |back| >= 2
    ensures Choose(back, C).Found? <==>
      || (exists k, l :: k < l && InteriorAt(back, C, k) && InteriorAt(back, C, l))
      || (back[0] in C && forall k :: !InteriorAt(back, C, k))
    ensures back[0] in C && (forall k :: !InteriorAt(back, C, k)) ==> Choose(back, C) == Found(0, 1)
  {
    var i := Highest(back, C, |back| - 2);
    if i >= 1 {
      var j := Lowest(back, C, 1, i);
      assert InteriorAt(back, C, i);
      if j < i {
        assert InteriorAt(back, C, j);
      } else {
        forall k | InteriorAt(back, C, k) ensures k == i {
        }
      }
    } else {
      forall k ensures !InteriorAt(back, C, k) {
      }
    }
  }
}
