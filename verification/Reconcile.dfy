/** Two reconcilers of endpoint entries. */
module Reconcile {
  // They move the entries of the deployments through pending, ready and terminating, each in its own pass
  // over all deployments: the deployment pass compares entries with pods, the endpoints pass makes the SDN
  // controller follow and rewrites the statuses.

  import opened Wrappers

  datatype Status = Ready | Terminating | Pending | Unknown

  datatype Entry = Entry(uid: string, status: Status, nodeName: string, podIp: string)

  datatype Pod = Pod(uid: string, running: bool, nodeName: string, podIp: string)

  datatype DeploymentEndpoints = DeploymentEndpoints(name: string, entries: seq<Entry>)

  // ---- The deployment pass, one deployment ----

  function FirstPod(pods: seq<Pod>, uid: string): (k: nat)
    ensures k <= |pods| && (k < |pods| ==> pods[k].uid == uid)
    ensures forall j :: 0 <= j < k ==> pods[j].uid != uid
  {
    if pods == [] || pods[0].uid == uid then 0 else 1 + FirstPod(pods[1..], uid)
  }

  predicate HasPod(pods: seq<Pod>, uid: string) { FirstPod(pods, uid) < |pods| }

  function FirstEntry(entries: seq<Entry>, uid: string): (k: nat)
    ensures k <= |entries| && (k < |entries| ==> entries[k].uid == uid)
    ensures forall j :: 0 <= j < k ==> entries[j].uid != uid
  {
    if entries == [] || entries[0].uid == uid then 0 else 1 + FirstEntry(entries[1..], uid)
  }

  predicate HasEntry(entries: seq<Entry>, uid: string) { FirstEntry(entries, uid) < |entries| }

  /** The entry with its status as the first loop leaves it. */
  function Marked(pods: seq<Pod>, e: Entry): Entry {
    if HasPod(pods, e.uid) then e else e.(status := Terminating)
  }

  /** The entries without a pod, marked for termination. */
  function Orphans(pods: seq<Pod>, entries: seq<Entry>): seq<Entry> {
    if entries == [] then []
    else
      var e := entries[|entries| - 1];
      Orphans(pods, entries[..|entries| - 1]) + if HasPod(pods, e.uid) then [] else [Marked(pods, e)]
  }

  function PendingEntry(p: Pod): Entry { Entry(p.uid, Pending, p.nodeName, p.podIp) }

  /** The entry of one pod: the one it has, or a new one if it is running. */
  function EntryOfPod(p: Pod, entries: seq<Entry>): seq<Entry> {
    if HasEntry(entries, p.uid) then [entries[FirstEntry(entries, p.uid)]]
    else if p.running then [PendingEntry(p)] else []
  }

  function EntriesOfPods(pods: seq<Pod>, entries: seq<Entry>): seq<Entry> {
    if pods == [] then []
    else EntriesOfPods(pods[..|pods| - 1], entries) + EntryOfPod(pods[|pods| - 1], entries)
  }

  function Reconciled(pods: seq<Pod>, entries: seq<Entry>): seq<Entry> {
    Orphans(pods, entries) + EntriesOfPods(pods, entries)
  }

  predicate ToTerminate(pods: seq<Pod>, e: Entry) { !HasPod(pods, e.uid) && e.status != Terminating }

  predicate ToCreate(p: Pod, entries: seq<Entry>) { p.running && !HasEntry(entries, p.uid) }

  ghost predicate Changes(pods: seq<Pod>, entries: seq<Entry>) {
    AnyToTerminate(pods, entries) || AnyToCreate(pods, entries)
  }

  ghost predicate AnyToTerminate(pods: seq<Pod>, entries: seq<Entry>) {
    exists i :: 0 <= i < |entries| && ToTerminate(pods, entries[i])
  }

  ghost predicate AnyToCreate(pods: seq<Pod>, entries: seq<Entry>) {
    exists j :: 0 <= j < |pods| && ToCreate(pods[j], entries)
  }

  lemma OneMoreOrphan(pods: seq<Pod>, entries: seq<Entry>, i: nat)
    requires i < |entries|
    ensures Orphans(pods, entries[..i + 1])
         == Orphans(pods, entries[..i]) + if HasPod(pods, entries[i].uid) then [] else [Marked(pods, entries[i])]
    ensures AnyToTerminate(pods, entries[..i + 1])
      <==> AnyToTerminate(pods, entries[..i]) || ToTerminate(pods, entries[i])
  {
    var more := entries[..i + 1];
    assert more[..i] == entries[..i] && more[i] == entries[i];
    if AnyToTerminate(pods, entries[..i]) {
      var j :| 0 <= j < i && ToTerminate(pods, entries[..i][j]);
      assert ToTerminate(pods, more[j]);
    }
  }

  lemma OneMorePod(pods: seq<Pod>, entries: seq<Entry>, j: nat)
    requires j < |pods|
    ensures EntriesOfPods(pods[..j + 1], entries) == EntriesOfPods(pods[..j], entries) + EntryOfPod(pods[j], entries)
    ensures AnyToCreate(pods[..j + 1], entries) <==> AnyToCreate(pods[..j], entries) || ToCreate(pods[j], entries)
  {
    var more := pods[..j + 1];
    assert more[..j] == pods[..j] && more[j] == pods[j];
    if AnyToCreate(pods[..j], entries) {
      var i :| 0 <= i < j && ToCreate(pods[..j][i], entries);
      assert ToCreate(more[i], entries);
    }
  }

  // ---- What the deployment pass says of entries and pods ----

  /** The same pod, on the same node and with the same address. */
  predicate SamePlace(e: Entry, x: Entry) { e.uid == x.uid && e.nodeName == x.nodeName && e.podIp == x.podIp }

  ghost predicate NoPod(pods: seq<Pod>, uid: string) { forall j :: 0 <= j < |pods| ==> pods[j].uid != uid }

  ghost predicate NoEntry(entries: seq<Entry>, uid: string) {
    forall i :: 0 <= i < |entries| ==> entries[i].uid != uid
  }

  /** An entry keeps its place, and it is marked for termination exactly if its pod is gone. */
  ghost predicate SaysMarked(pods: seq<Pod>, before: Entry, after: Entry) {
    && SamePlace(after, before)
    && (NoPod(pods, before.uid) ==> after.status == Terminating)
    && (!NoPod(pods, before.uid) ==> after.status == before.status)
  }

  /** A new entry is pending, with node and address of its pod. */
  predicate SaysNew(p: Pod, e: Entry) {
    p.running && e.uid == p.uid && e.nodeName == p.nodeName && e.podIp == p.podIp && e.status == Pending
  }

  /** Where an entry of the result comes from: an old entry whose pod is gone, or a pod. */
  datatype Origin = Orphan(i: nat) | OfPod(j: nat)

  ghost predicate IsOrigin(pods: seq<Pod>, entries: seq<Entry>, o: Origin) {
    match o
    case Orphan(i) => i < |entries| && NoPod(pods, entries[i].uid)
    case OfPod(j) => j < |pods| && (pods[j].running || !NoEntry(entries, pods[j].uid))
  }

  /** The entry of a pod is its first old entry, unchanged, or a new one if it has none. */
  ghost predicate SaysOrigin(pods: seq<Pod>, entries: seq<Entry>, o: Origin, e: Entry)
    requires IsOrigin(pods, entries, o)
  {
    match o
    case Orphan(i) => SamePlace(e, entries[i]) && e.status == Terminating
    case OfPod(j) =>
      if NoEntry(entries, pods[j].uid) then SaysNew(pods[j], e)
      else
        exists i :: 0 <= i < |entries| && entries[i].uid == pods[j].uid
                 && (forall l :: 0 <= l < i ==> entries[l].uid != pods[j].uid)
                 && SamePlace(e, entries[i]) && e.status == entries[i].status
  }

  ghost predicate SaysOrigins(pods: seq<Pod>, entries: seq<Entry>, origins: seq<Origin>, res: seq<Entry>) {
    && |res| == |origins|
    && forall k :: 0 <= k < |origins| ==>
         IsOrigin(pods, entries, origins[k]) && SaysOrigin(pods, entries, origins[k], res[k])
  }

  ghost predicate Distinct(origins: seq<Origin>) { forall i, j :: 0 <= i < j < |origins| ==> origins[i] != origins[j] }

  /** The result has one entry for each old entry without a pod and for each pod that has an entry or runs,
      and no other. */
  ghost predicate SaysReconciled(pods: seq<Pod>, entries: seq<Entry>, res: seq<Entry>) {
    exists origins ::
      && SaysOrigins(pods, entries, origins, res) && Distinct(origins)
      && forall o :: IsOrigin(pods, entries, o) ==> o in origins
  }

  lemma WhenHas(pods: seq<Pod>, entries: seq<Entry>, uid: string)
    ensures HasPod(pods, uid) <==> !NoPod(pods, uid)
    ensures HasEntry(entries, uid) <==> !NoEntry(entries, uid)
  {
  }

  lemma OneMoreOrigin(pods: seq<Pod>, entries: seq<Entry>, origins: seq<Origin>, res: seq<Entry>, o: Origin, e: Entry)
    requires SaysOrigins(pods, entries, origins, res) && Distinct(origins) && o !in origins
    requires IsOrigin(pods, entries, o) && SaysOrigin(pods, entries, o, e)
    ensures SaysOrigins(pods, entries, origins + [o], res + [e]) && Distinct(origins + [o])
  {
    var more := origins + [o];
    forall k | 0 <= k < |more|
      ensures IsOrigin(pods, entries, more[k]) && SaysOrigin(pods, entries, more[k], (res + [e])[k])
    {
    }
  }

  /** The origins among the first `n` entries, and what is listed for them. */
  ghost predicate OrphanList(pods: seq<Pod>, entries: seq<Entry>, n: nat, origins: seq<Origin>, res: seq<Entry>) {
    && n <= |entries| && SaysOrigins(pods, entries, origins, res) && Distinct(origins)
    && (forall o :: o in origins ==> o.Orphan? && o.i < n)
    && forall i: nat :: i < n && NoPod(pods, entries[i].uid) ==> Orphan(i) in origins
  }

  lemma OrphanStep(pods: seq<Pod>, entries: seq<Entry>, m: nat, origins: seq<Origin>, res: seq<Entry>)
    requires m < |entries| && OrphanList(pods, entries, m, origins, res)
    ensures HasPod(pods, entries[m].uid) ==> OrphanList(pods, entries, m + 1, origins, res)
    ensures !HasPod(pods, entries[m].uid) ==>
      OrphanList(pods, entries, m + 1, origins + [Orphan(m)], res + [Marked(pods, entries[m])])
  {
    WhenHas(pods, entries, entries[m].uid);
    if !HasPod(pods, entries[m].uid) {
      OneMoreOrigin(pods, entries, origins, res, Orphan(m), Marked(pods, entries[m]));
    }
  }

  lemma {:induction false} OrphansSay(pods: seq<Pod>, entries: seq<Entry>, n: nat) returns (origins: seq<Origin>)
    requires n <= |entries|
    ensures OrphanList(pods, entries, n, origins, Orphans(pods, entries[..n]))
  {
    if n == 0 {
      origins := [];
    } else {
      var res := Orphans(pods, entries[..n - 1]);
      origins := OrphansSay(pods, entries, n - 1);
      OneMoreOrphan(pods, entries, n - 1);
      OrphanStep(pods, entries, n - 1, origins, res);
      assert res + [] == res;
      origins := if HasPod(pods, entries[n - 1].uid) then origins else origins + [Orphan(n - 1)];
    }
  }

  /** The origins among the first `n` pods, and what is listed for them. */
  ghost predicate PodList(pods: seq<Pod>, entries: seq<Entry>, n: nat, origins: seq<Origin>, res: seq<Entry>) {
    && n <= |pods| && SaysOrigins(pods, entries, origins, res) && Distinct(origins)
    && (forall o :: o in origins ==> o.OfPod? && o.j < n)
    && forall j: nat :: j < n && IsOrigin(pods, entries, OfPod(j)) ==> OfPod(j) in origins
  }

  lemma PodStep(pods: seq<Pod>, entries: seq<Entry>, m: nat, origins: seq<Origin>, res: seq<Entry>, e: Entry)
    requires m < |pods| && PodList(pods, entries, m, origins, res)
    ensures !IsOrigin(pods, entries, OfPod(m)) ==> PodList(pods, entries, m + 1, origins, res)
    ensures IsOrigin(pods, entries, OfPod(m)) && SaysOrigin(pods, entries, OfPod(m), e) ==>
      PodList(pods, entries, m + 1, origins + [OfPod(m)], res + [e])
  {
    if IsOrigin(pods, entries, OfPod(m)) && SaysOrigin(pods, entries, OfPod(m), e) {
      OneMoreOrigin(pods, entries, origins, res, OfPod(m), e);
    }
  }

  lemma {:induction false} PodsSay(pods: seq<Pod>, entries: seq<Entry>, n: nat) returns (origins: seq<Origin>)
    requires n <= |pods|
    ensures PodList(pods, entries, n, origins, EntriesOfPods(pods[..n], entries))
  {
    if n == 0 {
      origins := [];
    } else {
      var res, more := EntriesOfPods(pods[..n - 1], entries), EntryOfPod(pods[n - 1], entries);
      origins := PodsSay(pods, entries, n - 1);
      OneMorePod(pods, entries, n - 1);
      PodSays(pods, entries, n - 1);
      assert res + [] == res;
      if IsOrigin(pods, entries, OfPod(n - 1)) {
        PodStep(pods, entries, n - 1, origins, res, more[0]);
        origins := origins + [OfPod(n - 1)];
        assert more == [more[0]];
      } else {
        PodStep(pods, entries, n - 1, origins, res, Entry("", Unknown, "", ""));
      }
    }
  }

  lemma PodSays(pods: seq<Pod>, entries: seq<Entry>, j: nat)
    requires j < |pods|
    ensures IsOrigin(pods, entries, OfPod(j)) <==> HasEntry(entries, pods[j].uid) || pods[j].running
    ensures !IsOrigin(pods, entries, OfPod(j)) ==> EntryOfPod(pods[j], entries) == []
    ensures IsOrigin(pods, entries, OfPod(j)) ==>
      && |EntryOfPod(pods[j], entries)| == 1
      && SaysOrigin(pods, entries, OfPod(j), EntryOfPod(pods[j], entries)[0])
  {
    WhenHas(pods, entries, pods[j].uid);
    if HasEntry(entries, pods[j].uid) {
      var i := FirstEntry(entries, pods[j].uid);
      assert entries[i].uid == pods[j].uid && EntryOfPod(pods[j], entries)[0] == entries[i];
    }
  }

  lemma JoinOrigins(pods: seq<Pod>, entries: seq<Entry>, a: seq<Origin>, x: seq<Entry>, b: seq<Origin>, y: seq<Entry>)
    requires SaysOrigins(pods, entries, a, x) && Distinct(a) && SaysOrigins(pods, entries, b, y) && Distinct(b)
    requires (forall o :: o in a ==> o.Orphan?) && (forall o :: o in b ==> o.OfPod?)
    ensures SaysOrigins(pods, entries, a + b, x + y) && Distinct(a + b)
  {
    forall i, j | 0 <= i < j < |a + b| ensures (a + b)[i] != (a + b)[j] {
      if i < |a| <= j {
        assert (a + b)[i] in a && (a + b)[j] in b;
      }
    }
  }

  lemma ReconciledSays(pods: seq<Pod>, entries: seq<Entry>)
    ensures SaysReconciled(pods, entries, Reconciled(pods, entries))
  {
    var a := OrphansSay(pods, entries, |entries|);
    var b := PodsSay(pods, entries, |pods|);
    assert entries[..|entries|] == entries && pods[..|pods|] == pods;
    JoinOrigins(pods, entries, a, Orphans(pods, entries), b, EntriesOfPods(pods, entries));
    forall o | IsOrigin(pods, entries, o) ensures o in a + b {
      match o
      case Orphan(i) =>
      case OfPod(j) =>
    }
  }

  method ReconcileDeploymentEndpointEntries(pods: seq<Pod>, endpointEntries: array<Entry>)
    returns (validEntries: seq<Entry>, changed: bool)
    modifies endpointEntries
    ensures validEntries == Reconciled(pods, old(endpointEntries[..]))
    ensures SaysReconciled(pods, old(endpointEntries[..]), validEntries)
    ensures changed <==> Changes(pods, old(endpointEntries[..]))
    ensures forall i :: 0 <= i < endpointEntries.Length ==>
      SaysMarked(pods, old(endpointEntries[i]), endpointEntries[i])
  {
    ghost var before := endpointEntries[..];
    validEntries, changed := MarkOrphans(pods, endpointEntries);
    var kept, created := EntriesForPods(pods, endpointEntries, before);
    validEntries := validEntries + kept;
    changed := changed || created;
    ReconciledSays(pods, before);
  }

  /** The loop that keeps the entries with a pod and creates the missing ones. */
  method EntriesForPods(pods: seq<Pod>, endpointEntries: array<Entry>, ghost before: seq<Entry>)
    returns (validEntries: seq<Entry>, created: bool)
    requires |before| == endpointEntries.Length
    requires forall i :: 0 <= i < |before| ==> endpointEntries[i] == Marked(pods, before[i])
    ensures validEntries == EntriesOfPods(pods, before)
    ensures created <==> AnyToCreate(pods, before)
  {
    validEntries, created := [], false;
    for j := 0 to |pods|
      invariant validEntries == EntriesOfPods(pods[..j], before)
      invariant created <==> AnyToCreate(pods[..j], before)
    {
      var pod := pods[j];
      OneMorePod(pods, before, j);
      var k := FindEntry(pods, endpointEntries, before, pod.uid);
      if k == endpointEntries.Length {
        if pod.running {
          created := true;
          validEntries := validEntries + [PendingEntry(pod)];
        }
      } else {
        validEntries := validEntries + [endpointEntries[k]];
      }
    }
    assert pods[..|pods|] == pods;
  }

  /** The loop that marks the entries without a pod. */
  method MarkOrphans(pods: seq<Pod>, endpointEntries: array<Entry>) returns (validEntries: seq<Entry>, changed: bool)
    modifies endpointEntries
    ensures validEntries == Orphans(pods, old(endpointEntries[..]))
    ensures changed <==> AnyToTerminate(pods, old(endpointEntries[..]))
    ensures forall i :: 0 <= i < endpointEntries.Length ==> endpointEntries[i] == Marked(pods, old(endpointEntries[i]))
  {
    ghost var before := endpointEntries[..];
    changed, validEntries := false, [];
    for i := 0 to endpointEntries.Length
      invariant forall j :: 0 <= j < endpointEntries.Length ==>
        endpointEntries[j] == if j < i then Marked(pods, before[j]) else before[j]
      invariant validEntries == Orphans(pods, before[..i])
      invariant changed <==> AnyToTerminate(pods, before[..i])
    {
      OneMoreOrphan(pods, before, i);
      var found, marked := MarkOne(pods, endpointEntries, i);
      changed := changed || marked;
      if !found {
        validEntries := validEntries + [endpointEntries[i]];
      }
    }
    assert before[..endpointEntries.Length] == before;
  }

  method MarkOne(pods: seq<Pod>, endpointEntries: array<Entry>, i: nat) returns (found: bool, marked: bool)
    requires i < endpointEntries.Length
    modifies endpointEntries
    ensures found <==> HasPod(pods, old(endpointEntries[i]).uid)
    ensures marked <==> ToTerminate(pods, old(endpointEntries[i]))
    ensures endpointEntries[i] == Marked(pods, old(endpointEntries[i]))
    ensures forall j :: 0 <= j < endpointEntries.Length && j != i ==> endpointEntries[j] == old(endpointEntries[j])
  {
    found := FindPod(pods, endpointEntries[i].uid);
    marked := !found && endpointEntries[i].status != Terminating;
    if marked {
      endpointEntries[i] := endpointEntries[i].(status := Terminating);
    }
  }

  method FindPod(pods: seq<Pod>, uid: string) returns (found: bool)
    ensures found <==> HasPod(pods, uid)
  {
    for j := 0 to |pods|
      invariant forall k :: 0 <= k < j ==> pods[k].uid != uid
    {
      if pods[j].uid == uid {
        return true;
      }
    }
    return false;
  }

  /** The search for the entry of a pod sees the marked entries, which are the old ones as far as it matters. */
  method FindEntry(pods: seq<Pod>, endpointEntries: array<Entry>, ghost before: seq<Entry>, uid: string)
    returns (k: nat)
    requires |before| == endpointEntries.Length && HasPod(pods, uid)
    requires forall i :: 0 <= i < |before| ==> endpointEntries[i] == Marked(pods, before[i])
    ensures k == FirstEntry(before, uid)
    ensures k < |before| ==> endpointEntries[k] == before[k]
  {
    for i := 0 to endpointEntries.Length
      invariant forall j :: 0 <= j < i ==> before[j].uid != uid
    {
      if endpointEntries[i].uid == uid {
        return i;
      }
    }
    return endpointEntries.Length;
  }

  // ---- The endpoints pass, one deployment ----

  predicate Valid(e: Entry) { e.status == Ready || e.status == Pending }

  /** The addresses configured for a node, in order. */
  function AddressesAt(entries: seq<Entry>, node: string): seq<string> {
    if entries == [] then []
    else
      var e := entries[|entries| - 1];
      AddressesAt(entries[..|entries| - 1], node) + if Valid(e) && e.nodeName == node then [e.podIp] else []
  }

  ghost predicate IsKnown(entries: seq<Entry>) { forall i :: 0 <= i < |entries| ==> entries[i].status != Unknown }

  ghost predicate Unsettled(entries: seq<Entry>) { exists i :: 0 <= i < |entries| && entries[i].status != Ready }

  /** What is sent to the SDN controller; None where the code panics. */
  method GetEntitiesForEndpoints(entries: seq<Entry>) returns (r: Option<(map<string, seq<string>>, bool)>)
    ensures r.Some? <==> IsKnown(entries)
    ensures r.Some? ==> (r.value.1 <==> Unsettled(entries)) && Collects(r.value.0, entries)
    ensures r.Some? ==> SaysSent(entries, r.value.0)
  {
    var res: map<string, seq<string>> := map[];
    var changed := false;
    for i := 0 to |entries|
      invariant IsKnown(entries[..i]) && (changed <==> Unsettled(entries[..i])) && Collects(res, entries[..i])
    {
      var entry := entries[i];
      OneMoreEntry(entries, i);
      var valid := false;
      match entry.status {
        case Ready => valid := true;
        case Terminating => changed := true;
        case Pending => valid, changed := true, true;
        case Unknown => return None;
      }
      OneMoreAddress(res, entries[..i], entry);
      if valid {
        res := res[entry.nodeName := (if entry.nodeName in res then res[entry.nodeName] else []) + [entry.podIp]];
      }
    }
    assert entries[..|entries|] == entries;
    CollectedSays(res, entries);
    return Some((res, changed));
  }

  /** Each node with addresses has exactly its own. */
  ghost predicate Collects(res: map<string, seq<string>>, entries: seq<Entry>) {
    && (forall n :: n in res <==> AddressesAt(entries, n) != [])
    && (forall n :: n in res ==> res[n] == AddressesAt(entries, n))
  }

  /** The entries of a node that telemetry is configured for. */
  ghost function ValidAt(entries: seq<Entry>, node: string): set<nat> {
    set i: nat | i < |entries| && entries[i].status in {Ready, Pending} && entries[i].nodeName == node
  }

  /** The places are listed in order, each once. */
  ghost predicate Picks(at: seq<nat>, places: set<nat>) {
    && (forall k, l :: 0 <= k < l < |at| ==> at[k] < at[l])
    && (forall i :: i in at <==> i in places)
  }

  lemma OneMorePlace(at: seq<nat>, places: set<nat>, n: nat)
    requires Picks(at, places) && forall i :: i in places ==> i < n
    ensures Picks(at + [n], places + {n})
  {
    forall k | 0 <= k < |at| ensures at[k] < n {
      assert at[k] in places;
    }
  }

  /** The addresses of a node are those of its valid entries, one each and in order. */
  ghost predicate SaysAddresses(entries: seq<Entry>, node: string, ips: seq<string>) {
    exists at :: Picks(at, ValidAt(entries, node)) && AddressedAt(entries, at, ips)
  }

  ghost predicate AddressedAt(entries: seq<Entry>, at: seq<nat>, ips: seq<string>) {
    |ips| == |at| && forall k :: 0 <= k < |at| ==> at[k] < |entries| && ips[k] == entries[at[k]].podIp
  }

  /** What is sent has the addresses of every node that has a valid entry, and no other node. */
  ghost predicate SaysSent(entries: seq<Entry>, res: map<string, seq<string>>) {
    && (forall n :: n in res <==> ValidAt(entries, n) != {})
    && (forall n :: n in res ==> SaysAddresses(entries, n, res[n]))
  }

  ghost function PlacesAt(entries: seq<Entry>, node: string): seq<nat> {
    if entries == [] then []
    else
      var n := |entries| - 1;
      PlacesAt(entries[..n], node) + if Valid(entries[n]) && entries[n].nodeName == node then [n] else []
  }

  lemma OneMoreAddressed(entries: seq<Entry>, at: seq<nat>, ips: seq<string>)
    requires entries != [] && AddressedAt(entries[..|entries| - 1], at, ips)
    ensures var e := entries[|entries| - 1];
      AddressedAt(entries, at, ips) && AddressedAt(entries, at + [|entries| - 1], ips + [e.podIp])
  {
  }

  lemma {:induction false} PlacesAre(entries: seq<Entry>, node: string)
    ensures Picks(PlacesAt(entries, node), ValidAt(entries, node))
    ensures AddressedAt(entries, PlacesAt(entries, node), AddressesAt(entries, node))
  {
    if entries == [] {
    } else {
      var n := |entries| - 1;
      PlacesAre(entries[..n], node);
      var at, valid, ips := PlacesAt(entries[..n], node), ValidAt(entries[..n], node), AddressesAt(entries[..n], node);
      OneMoreAddressed(entries, at, ips);
      assert at + [] == at && ips + [] == ips;
      if Valid(entries[n]) && entries[n].nodeName == node {
        assert ValidAt(entries, node) == valid + {n};
        OneMorePlace(at, valid, n);
      } else {
        assert ValidAt(entries, node) == valid;
      }
    }
  }

  lemma AddressesSay(entries: seq<Entry>, node: string)
    ensures SaysAddresses(entries, node, AddressesAt(entries, node))
    ensures AddressesAt(entries, node) != [] <==> ValidAt(entries, node) != {}
  {
    PlacesAre(entries, node);
    var at := PlacesAt(entries, node);
    if at != [] {
      assert at[0] in ValidAt(entries, node);
    }
  }

  lemma CollectedSays(res: map<string, seq<string>>, entries: seq<Entry>)
    requires Collects(res, entries)
    ensures SaysSent(entries, res)
  {
    forall n ensures n in res <==> ValidAt(entries, n) != {} {
      AddressesSay(entries, n);
    }
    forall n | n in res ensures SaysAddresses(entries, n, res[n]) {
      AddressesSay(entries, n);
    }
  }

  lemma OneMoreEntry(entries: seq<Entry>, i: nat)
    requires i < |entries|
    ensures entries[..i + 1] == entries[..i] + [entries[i]]
    ensures IsKnown(entries[..i + 1]) <==> IsKnown(entries[..i]) && entries[i].status != Unknown
    ensures IsKnown(entries) ==> entries[i].status != Unknown
    ensures Unsettled(entries[..i + 1]) <==> Unsettled(entries[..i]) || entries[i].status != Ready
  {
  }

  lemma OneMoreAddress(res: map<string, seq<string>>, entries: seq<Entry>, e: Entry)
    requires Collects(res, entries)
    ensures var sofar := if e.nodeName in res then res[e.nodeName] else [];
      Collects(if Valid(e) then res[e.nodeName := sofar + [e.podIp]] else res, entries + [e])
  {
    assert (entries + [e])[..|entries|] == entries;
  }

  /** The entries that are not terminating, made ready. */
  function Promoted(entries: seq<Entry>): seq<Entry> {
    if entries == [] then []
    else
      var e := entries[|entries| - 1];
      Promoted(entries[..|entries| - 1]) + if e.status == Terminating then [] else [e.(status := Ready)]
  }

  method Promote(entries: seq<Entry>) returns (newEntries: seq<Entry>)
    ensures newEntries == Promoted(entries) && SaysPromoted(entries, newEntries)
  {
    newEntries := [];
    for i := 0 to |entries|
      invariant newEntries == Promoted(entries[..i])
    {
      assert entries[..i + 1][..i] == entries[..i];
      if entries[i].status != Terminating {
        newEntries := newEntries + [entries[i].(status := Ready)];
      }
    }
    assert entries[..|entries|] == entries;
    KeptPlacesAre(entries);
  }

  /** The addresses that were sent for a node are those of the entries that are kept. */
  lemma SentIsKept(entries: seq<Entry>, node: string)
    requires IsKnown(entries)
    ensures exists ips :: SaysAddresses(entries, node, ips) && SaysAddresses(Promoted(entries), node, ips)
  {
    AddressesKept(entries, node);
    AddressesSay(entries, node);
    AddressesSay(Promoted(entries), node);
  }

  lemma {:induction false} AddressesKept(entries: seq<Entry>, node: string)
    requires IsKnown(entries)
    ensures AddressesAt(Promoted(entries), node) == AddressesAt(entries, node)
  {
    if entries == [] {
    } else {
      var n := |entries| - 1;
      var rest := Promoted(entries[..n]);
      AddressesKept(entries[..n], node);
      if entries[n].status != Terminating {
        assert (rest + [entries[n].(status := Ready)])[..|rest|] == rest;
      } else {
        assert rest + [] == rest;
      }
    }
  }

  ghost function KeptAt(entries: seq<Entry>): set<nat> {
    set i: nat | i < |entries| && entries[i].status != Terminating
  }

  /** What is kept: the entries that are not terminating, in order, at their places and ready. */
  ghost predicate SaysPromoted(entries: seq<Entry>, res: seq<Entry>) {
    exists at :: Picks(at, KeptAt(entries)) && ReadyAt(entries, at, res)
  }

  ghost predicate ReadyAt(entries: seq<Entry>, at: seq<nat>, res: seq<Entry>) {
    && |res| == |at|
    && forall k :: 0 <= k < |at| ==> at[k] < |entries| && SamePlace(res[k], entries[at[k]]) && res[k].status == Ready
  }

  ghost function KeptPlaces(entries: seq<Entry>): seq<nat> {
    if entries == [] then []
    else
      var n := |entries| - 1;
      KeptPlaces(entries[..n]) + if entries[n].status == Terminating then [] else [n]
  }

  lemma OneMoreKept(entries: seq<Entry>, at: seq<nat>, res: seq<Entry>)
    requires entries != [] && ReadyAt(entries[..|entries| - 1], at, res)
    ensures var e := entries[|entries| - 1];
      ReadyAt(entries, at, res) && ReadyAt(entries, at + [|entries| - 1], res + [e.(status := Ready)])
  {
  }

  lemma {:induction false} KeptPlacesAre(entries: seq<Entry>)
    ensures Picks(KeptPlaces(entries), KeptAt(entries)) && ReadyAt(entries, KeptPlaces(entries), Promoted(entries))
  {
    if entries == [] {
    } else {
      var n := |entries| - 1;
      KeptPlacesAre(entries[..n]);
      var at, kept, res := KeptPlaces(entries[..n]), KeptAt(entries[..n]), Promoted(entries[..n]);
      OneMoreKept(entries, at, res);
      assert at + [] == at && res + [] == res;
      if entries[n].status == Terminating {
        assert KeptAt(entries) == kept;
      } else {
        assert KeptAt(entries) == kept + {n};
        OneMorePlace(at, kept, n);
      }
    }
  }

  // ---- Both passes over all deployments ----

  function PodsOf(pods: map<string, seq<Pod>>, name: string): seq<Pod> { if name in pods then pods[name] else [] }

  function ReconciledEndpoints(pods: map<string, seq<Pod>>, d: DeploymentEndpoints): DeploymentEndpoints {
    DeploymentEndpoints(d.name, Reconciled(PodsOf(pods, d.name), d.entries))
  }

  ghost predicate ChangesAt(pods: map<string, seq<Pod>>, d: DeploymentEndpoints) {
    Changes(PodsOf(pods, d.name), d.entries)
  }

  ghost predicate AnyChanges(pods: map<string, seq<Pod>>, ds: seq<DeploymentEndpoints>) {
    exists i :: 0 <= i < |ds| && ChangesAt(pods, ds[i])
  }

  /** One deployment pass: if anything changed, all lists are replaced. */
  ghost function AfterDeployments(pods: map<string, seq<Pod>>, ds: seq<DeploymentEndpoints>): seq<DeploymentEndpoints> {
    if AnyChanges(pods, ds) then seq(|ds|, i requires 0 <= i < |ds| => ReconciledEndpoints(pods, ds[i])) else ds
  }

  ghost predicate AnyUnsettled(ds: seq<DeploymentEndpoints>) {
    exists i :: 0 <= i < |ds| && Unsettled(ds[i].entries)
  }

  /** One endpoints pass in which the SDN controller accepts the configuration. */
  ghost function AfterEndpoints(ds: seq<DeploymentEndpoints>): seq<DeploymentEndpoints> {
    if AnyUnsettled(ds) then
      seq(|ds|, i requires 0 <= i < |ds| => DeploymentEndpoints(ds[i].name, Promoted(ds[i].entries)))
    else ds
  }

  /** The deployment templates name each managed deployment once. */
  ghost predicate NamesMatch(templates: seq<string>, ds: seq<DeploymentEndpoints>) {
    && (forall i, j :: 0 <= i < j < |ds| ==> ds[i].name != ds[j].name)
    && (forall i :: 0 <= i < |ds| ==> ds[i].name in templates)
  }

  ghost predicate Managed(ds: seq<DeploymentEndpoints>, name: string) {
    exists i :: 0 <= i < |ds| && ds[i].name == name
  }

  const BLANK := DeploymentEndpoints("", [])

  /** The deployment that a template finds: the first one with its name. */
  ghost predicate Chosen(templates: seq<string>, ds: seq<DeploymentEndpoints>, i: nat)
    requires i < |ds|
  {
    ds[i].name in templates && forall j :: 0 <= j < i ==> ds[j].name != ds[i].name
  }

  ghost predicate AnyChosenChanges(templates: seq<string>, pods: map<string, seq<Pod>>, ds: seq<DeploymentEndpoints>) {
    exists i: nat :: i < |ds| && Chosen(templates, ds, i) && ChangesAt(pods, ds[i])
  }

  /** One deployment pass for any templates: if a chosen deployment changed, the list is replaced, and
      those that no template chose come out blank. */
  ghost function DeploymentPass(templates: seq<string>, pods: map<string, seq<Pod>>, ds: seq<DeploymentEndpoints>)
    : seq<DeploymentEndpoints>
  {
    if AnyChosenChanges(templates, pods, ds) then
      seq(|ds|, i requires 0 <= i < |ds| =>
        if Chosen(templates, ds, i) then ReconciledEndpoints(pods, ds[i]) else BLANK)
    else ds
  }

  /** The result is None where a template has no deployment. */
  method ReconcileDeploymentEndpoints(templates: seq<string>, perDeploymentPods: map<string, seq<Pod>>,
                                      managed: seq<DeploymentEndpoints>)
    returns (r: Option<seq<DeploymentEndpoints>>)
    ensures r.Some? <==> forall t :: t in templates ==> Managed(managed, t)
    ensures r.Some? ==> r.value == DeploymentPass(templates, perDeploymentPods, managed)
  {
    var reconciled := seq(|managed|, _ => BLANK);
    var changed := false;
    ghost var picked: set<nat> := {};
    ghost var goal, changes := Goals(perDeploymentPods, managed);
    for t := 0 to |templates|
      invariant AllManaged(templates[..t], managed)
      invariant Picked(templates[..t], managed, picked)
      invariant Progress(goal, changes, picked, reconciled, changed)
    {
      var endpointsIdx := FindDeployment(managed, templates[t]);
      OneMoreTemplate(templates, managed, t, picked, endpointsIdx);
      if endpointsIdx == |managed| {
        return None;
      }
      var endpoints, chngd := ReconcileOne(perDeploymentPods, managed, endpointsIdx, goal, changes);
      changed := changed || chngd;
      reconciled := reconciled[endpointsIdx := endpoints];
      picked := picked + {endpointsIdx};
    }
    assert templates[..|templates|] == templates;
    PassIsComplete(templates, perDeploymentPods, managed, goal, changes, picked, reconciled, changed);
    return Some(if changed then reconciled else managed);
  }

  ghost predicate AllManaged(templates: seq<string>, ds: seq<DeploymentEndpoints>) {
    forall t :: t in templates ==> Managed(ds, t)
  }

  ghost predicate Picked(templates: seq<string>, ds: seq<DeploymentEndpoints>, picked: set<nat>) {
    forall i: nat {:trigger Chosen(templates, ds, i)} {:trigger i in picked} ::
      i in picked <==> i < |ds| && Chosen(templates, ds, i)
  }

  /** The picked deployments have reached their goals, and nothing else was touched. */
  ghost predicate Progress(goal: seq<DeploymentEndpoints>, changes: seq<bool>, picked: set<nat>,
                           reconciled: seq<DeploymentEndpoints>, changed: bool)
  {
    && |reconciled| == |goal| == |changes|
    && (forall i :: 0 <= i < |goal| ==> reconciled[i] == if i in picked then goal[i] else BLANK)
    && (changed <==> exists i :: 0 <= i < |goal| && i in picked && changes[i])
  }

  lemma OneMoreTemplate(templates: seq<string>, ds: seq<DeploymentEndpoints>, t: nat, picked: set<nat>, k: nat)
    requires t < |templates| && k <= |ds| && AllManaged(templates[..t], ds) && Picked(templates[..t], ds, picked)
    requires if k < |ds| then IsFirst(ds, k, templates[t]) else !Managed(ds, templates[t])
    ensures AllManaged(templates[..t + 1], ds) <==> k < |ds|
    ensures k == |ds| ==> !AllManaged(templates, ds)
    ensures k < |ds| ==> Picked(templates[..t + 1], ds, picked + {k})
  {
    var more := templates[..t + 1];
    assert more == templates[..t] + [templates[t]] && templates[t] in more && templates[t] in templates;
    if k < |ds| {
      forall i: nat ensures i in picked + {k} <==> i < |ds| && Chosen(more, ds, i) {
        if i < |ds| {
          assert Chosen(templates[..t], ds, i) <==> i in picked;
          assert ds[i].name in more <==> ds[i].name in templates[..t] || ds[i].name == templates[t];
        }
      }
    }
  }

  ghost predicate IsFirst(ds: seq<DeploymentEndpoints>, k: nat, name: string)
    requires k < |ds|
  {
    ds[k].name == name && forall j :: 0 <= j < k ==> ds[j].name != name
  }

  lemma PassIsComplete(templates: seq<string>, pods: map<string, seq<Pod>>, ds: seq<DeploymentEndpoints>,
                       goal: seq<DeploymentEndpoints>, changes: seq<bool>, picked: set<nat>,
                       reconciled: seq<DeploymentEndpoints>, changed: bool)
    requires IsGoal(pods, ds, goal, changes) && Picked(templates, ds, picked)
    requires Progress(goal, changes, picked, reconciled, changed)
    ensures (if changed then reconciled else ds) == DeploymentPass(templates, pods, ds)
  {
    forall i: nat | i < |ds|
      ensures (i in picked <==> Chosen(templates, ds, i)) && (changes[i] <==> ChangesAt(pods, ds[i]))
      ensures goal[i] == ReconciledEndpoints(pods, ds[i])
    {
      assert GoalAt(pods, ds, goal, changes, i);
    }
    assert changed <==> AnyChosenChanges(templates, pods, ds);
  }

  /** If the templates name each managed deployment, and no name is there twice, all of them take part. */
  lemma AllTakePart(templates: seq<string>, pods: map<string, seq<Pod>>, ds: seq<DeploymentEndpoints>)
    requires NamesMatch(templates, ds)
    ensures DeploymentPass(templates, pods, ds) == AfterDeployments(pods, ds)
  {
    forall i: nat | i < |ds| ensures Chosen(templates, ds, i) {
    }
    assert AnyChosenChanges(templates, pods, ds) <==> AnyChanges(pods, ds);
  }

  ghost predicate GoalAt(pods: map<string, seq<Pod>>, ds: seq<DeploymentEndpoints>, goal: seq<DeploymentEndpoints>,
                         changes: seq<bool>, i: nat)
    requires i < |ds| == |goal| == |changes|
  {
    goal[i] == ReconciledEndpoints(pods, ds[i]) && (changes[i] <==> ChangesAt(pods, ds[i]))
  }

  ghost predicate IsGoal(pods: map<string, seq<Pod>>, ds: seq<DeploymentEndpoints>, goal: seq<DeploymentEndpoints>,
                         changes: seq<bool>)
  {
    && |goal| == |changes| == |ds|
    && forall i: nat {:trigger GoalAt(pods, ds, goal, changes, i)} :: i < |ds| ==> GoalAt(pods, ds, goal, changes, i)
  }

  /** What the pass aims at for each deployment, and which of them change. */
  lemma Goals(pods: map<string, seq<Pod>>, ds: seq<DeploymentEndpoints>)
    returns (goal: seq<DeploymentEndpoints>, changes: seq<bool>)
    ensures IsGoal(pods, ds, goal, changes)
  {
    goal := seq(|ds|, i requires 0 <= i < |ds| => ReconciledEndpoints(pods, ds[i]));
    changes := seq(|ds|, i requires 0 <= i < |ds| => ChangesAt(pods, ds[i]));
  }

  method ReconcileOne(pods: map<string, seq<Pod>>, ds: seq<DeploymentEndpoints>, i: nat,
                      ghost goal: seq<DeploymentEndpoints>, ghost changes: seq<bool>)
    returns (d: DeploymentEndpoints, changed: bool)
    requires i < |ds| && IsGoal(pods, ds, goal, changes)
    ensures d == goal[i] && changed == changes[i]
  {
    assert GoalAt(pods, ds, goal, changes, i);
    var entries := new Entry[|ds[i].entries|](j requires 0 <= j < |ds[i].entries| => ds[i].entries[j]);
    assert entries[..] == ds[i].entries;
    var valid;
    valid, changed := ReconcileDeploymentEndpointEntries(PodsOf(pods, ds[i].name), entries);
    d := DeploymentEndpoints(ds[i].name, valid);
  }

  method FindDeployment(managed: seq<DeploymentEndpoints>, name: string) returns (k: nat)
    ensures k <= |managed|
    ensures if k < |managed| then IsFirst(managed, k, name) else !Managed(managed, name)
  {
    for i := 0 to |managed|
      invariant forall j :: 0 <= j < i ==> managed[j].name != name
    {
      if managed[i].name == name {
        return i;
      }
    }
    return |managed|;
  }

  /** The endpoints pass; `accepted` is the answer of the SDN controller. The result is None where the
      code panics. */
  method ReconcileEndpoints(ds: seq<DeploymentEndpoints>, accepted: bool) returns (r: Option<seq<DeploymentEndpoints>>)
    ensures r.Some? <==> forall i :: 0 <= i < |ds| ==> IsKnown(ds[i].entries)
    ensures r.Some? ==> r.value == if accepted then AfterEndpoints(ds) else ds
  {
    var changed := false;
    for i := 0 to |ds|
      invariant forall j :: 0 <= j < i ==> IsKnown(ds[j].entries)
      invariant changed <==> exists j :: 0 <= j < i && Unsettled(ds[j].entries)
    {
      var entities := GetEntitiesForEndpoints(ds[i].entries);
      if entities.None? {
        return None;
      }
      changed := changed || entities.value.1;
    }
    if !changed || !accepted {
      return Some(ds);
    }
    var res := ds;
    for i := 0 to |ds|
      invariant |res| == |ds| && forall j :: i <= j < |ds| ==> res[j] == ds[j]
      invariant forall j :: 0 <= j < i ==> res[j] == DeploymentEndpoints(ds[j].name, Promoted(ds[j].entries))
    {
      var newEntries := Promote(ds[i].entries);
      res := res[i := DeploymentEndpoints(ds[i].name, newEntries)];
    }
    return Some(res);
  }

  // ---- Members of the lists ----

  ghost predicate UniquePods(pods: seq<Pod>) { forall i, j :: 0 <= i < j < |pods| ==> pods[i].uid != pods[j].uid }

  ghost predicate UniqueUids(entries: seq<Entry>) {
    forall i, j :: 0 <= i < j < |entries| ==> entries[i].uid != entries[j].uid
  }

  /** `uid` is the id of some entry. */
  ghost predicate UidIn(entries: seq<Entry>, uid: string) { exists i :: 0 <= i < |entries| && entries[i].uid == uid }

  lemma UniqueConcat(a: seq<Entry>, b: seq<Entry>)
    requires UniqueUids(a) && UniqueUids(b) && forall uid :: !(UidIn(a, uid) && UidIn(b, uid))
    ensures UniqueUids(a + b)
  {
    forall i, j | 0 <= i < j < |a + b| ensures (a + b)[i].uid != (a + b)[j].uid {
      if i < |a| <= j {
        assert UidIn(a, a[i].uid) && UidIn(b, b[j - |a|].uid);
      }
    }
  }

  lemma {:induction false} OrphansAre(pods: seq<Pod>, entries: seq<Entry>)
    requires UniqueUids(entries)
    ensures UniqueUids(Orphans(pods, entries))
    ensures forall e :: e in Orphans(pods, entries) ==>
      e.status == Terminating && !HasPod(pods, e.uid) && UidIn(entries, e.uid)
  {
    if entries == [] {
    } else {
      var n := |entries| - 1;
      OrphansAre(pods, entries[..n]);
      forall uid | UidIn(Orphans(pods, entries[..n]), uid) ensures UidIn(entries[..n], uid) && uid != entries[n].uid {
        var i :| 0 <= i < |Orphans(pods, entries[..n])| && Orphans(pods, entries[..n])[i].uid == uid;
        assert Orphans(pods, entries[..n])[i] in Orphans(pods, entries[..n]);
      }
      UniqueConcat(Orphans(pods, entries[..n]),
                   if HasPod(pods, entries[n].uid) then [] else [Marked(pods, entries[n])]);
    }
  }

  ghost predicate FromSomePod(pods: seq<Pod>, entries: seq<Entry>, e: Entry) {
    exists j :: 0 <= j < |pods| && e in EntryOfPod(pods[j], entries)
  }

  lemma FromOneMorePod(pods: seq<Pod>, entries: seq<Entry>, e: Entry)
    requires pods != []
    ensures FromSomePod(pods, entries, e)
      <==> FromSomePod(pods[..|pods| - 1], entries, e) || e in EntryOfPod(pods[|pods| - 1], entries)
  {
    var rest := pods[..|pods| - 1];
    if j :| 0 <= j < |rest| && e in EntryOfPod(rest[j], entries) {
      assert e in EntryOfPod(pods[j], entries);
    }
    if j :| 0 <= j < |pods| && e in EntryOfPod(pods[j], entries) {
      assert j < |rest| ==> e in EntryOfPod(rest[j], entries);
    }
  }

  lemma {:induction false} EntriesComeFromPods(pods: seq<Pod>, entries: seq<Entry>, e: Entry)
    ensures e in EntriesOfPods(pods, entries) <==> FromSomePod(pods, entries, e)
  {
    if pods == [] {
    } else {
      EntriesComeFromPods(pods[..|pods| - 1], entries, e);
      FromOneMorePod(pods, entries, e);
    }
  }

  lemma {:induction false} EntriesOfPodsAre(pods: seq<Pod>, entries: seq<Entry>)
    requires UniquePods(pods)
    ensures UniqueUids(EntriesOfPods(pods, entries))
    ensures forall e :: e in EntriesOfPods(pods, entries) <==> FromSomePod(pods, entries, e)
  {
    forall e ensures e in EntriesOfPods(pods, entries) <==> FromSomePod(pods, entries, e) {
      EntriesComeFromPods(pods, entries, e);
    }
    if pods == [] {
    } else {
      var n := |pods| - 1;
      EntriesOfPodsAre(pods[..n], entries);
      forall uid | UidIn(EntriesOfPods(pods[..n], entries), uid) ensures !UidIn(EntryOfPod(pods[n], entries), uid) {
        OtherPodsEntry(pods, entries, uid);
      }
      UniqueConcat(EntriesOfPods(pods[..n], entries), EntryOfPod(pods[n], entries));
    }
  }

  lemma OtherPodsEntry(pods: seq<Pod>, entries: seq<Entry>, uid: string)
    requires UniquePods(pods) && pods != [] && UidIn(EntriesOfPods(pods[..|pods| - 1], entries), uid)
    ensures !UidIn(EntryOfPod(pods[|pods| - 1], entries), uid)
  {
    var rest := pods[..|pods| - 1];
    var before := EntriesOfPods(rest, entries);
    var i :| 0 <= i < |before| && before[i].uid == uid;
    EntriesComeFromPods(rest, entries, before[i]);
    var j :| 0 <= j < |rest| && before[i] in EntryOfPod(rest[j], entries);
    assert rest[j] == pods[j] && pods[j].uid == uid;
  }

  lemma PodFound(pods: seq<Pod>, j: nat)
    requires j < |pods|
    ensures HasPod(pods, pods[j].uid)
  {
  }

  lemma EntryFound(entries: seq<Entry>, i: nat)
    requires i < |entries|
    ensures HasEntry(entries, entries[i].uid) && (UniqueUids(entries) ==> FirstEntry(entries, entries[i].uid) == i)
  {
  }

  lemma WhatIsPromoted(entries: seq<Entry>, at: seq<nat>, res: seq<Entry>, e: Entry)
    requires Picks(at, KeptAt(entries)) && ReadyAt(entries, at, res)
    ensures e in res <==>
      exists i :: 0 <= i < |entries| && entries[i].status != Terminating && e == entries[i].(status := Ready)
  {
    if e in res {
      var k :| 0 <= k < |res| && res[k] == e;
      assert at[k] in KeptAt(entries);
      assert e == entries[at[k]].(status := Ready);
    }
    if i :| 0 <= i < |entries| && entries[i].status != Terminating && e == entries[i].(status := Ready) {
      assert i in KeptAt(entries);
      var k :| 0 <= k < |at| && at[k] == i;
      assert res[k] == e;
    }
  }

  lemma PromotedUids(entries: seq<Entry>, at: seq<nat>, res: seq<Entry>)
    requires UniqueUids(entries) && Picks(at, KeptAt(entries)) && ReadyAt(entries, at, res)
    ensures UniqueUids(res)
  {
  }

  lemma PromotedAre(entries: seq<Entry>)
    requires UniqueUids(entries)
    ensures UniqueUids(Promoted(entries))
    ensures forall e :: e in Promoted(entries) <==>
      exists i :: 0 <= i < |entries| && entries[i].status != Terminating && e == entries[i].(status := Ready)
  {
    KeptPlacesAre(entries);
    PromotedUids(entries, KeptPlaces(entries), Promoted(entries));
    forall e ensures e in Promoted(entries) <==>
      exists i :: 0 <= i < |entries| && entries[i].status != Terminating && e == entries[i].(status := Ready)
    {
      WhatIsPromoted(entries, KeptPlaces(entries), Promoted(entries), e);
    }
  }

  // ---- One round ----

  ghost predicate DeploymentStep(pods: seq<Pod>, before: seq<Entry>, after: seq<Entry>) {
    after == Reconciled(pods, before) || (after == before && !Changes(pods, before))
  }

  ghost predicate EndpointsStep(before: seq<Entry>, after: seq<Entry>) {
    after == Promoted(before) || (after == before && !Unsettled(before))
  }

  /** Some entry with this id is not terminating. */
  ghost predicate Active(entries: seq<Entry>, uid: string) {
    exists i :: 0 <= i < |entries| && entries[i].uid == uid && entries[i].status != Terminating
  }

  /** After one round the pod has an entry. */
  ghost predicate Wanted(p: Pod, entries: seq<Entry>) {
    if HasEntry(entries, p.uid) then Active(entries, p.uid) else p.running
  }

  /** The entry belongs to a pod, and was there before or is new. */
  ghost predicate Born(pods: seq<Pod>, before: seq<Entry>, e: Entry) {
    exists j :: 0 <= j < |pods| && pods[j].uid == e.uid && (SaysNew(pods[j], e) || e in before)
  }

  lemma OneEntryPerPod(pods: seq<Pod>, entries: seq<Entry>, j: nat, e: Entry)
    requires j < |pods| && UniqueUids(entries)
    ensures e in EntryOfPod(pods[j], entries) <==>
      && e.uid == pods[j].uid
      && (e in entries || (!HasEntry(entries, e.uid) && pods[j].running && e == PendingEntry(pods[j])))
  {
  }

  lemma ReconciledAre(pods: seq<Pod>, entries: seq<Entry>)
    requires UniquePods(pods) && UniqueUids(entries)
    ensures UniqueUids(Reconciled(pods, entries))
    ensures forall e :: e in Reconciled(pods, entries) && HasPod(pods, e.uid) ==>
      exists j :: 0 <= j < |pods| && e in EntryOfPod(pods[j], entries)
    ensures forall e :: e in Reconciled(pods, entries) && !HasPod(pods, e.uid) ==> e.status == Terminating
    ensures forall e, j :: 0 <= j < |pods| && e in EntryOfPod(pods[j], entries) ==> e in Reconciled(pods, entries)
  {
    OrphansAre(pods, entries);
    EntriesOfPodsAre(pods, entries);
    var orphans, kept := Orphans(pods, entries), EntriesOfPods(pods, entries);
    forall e | e in kept ensures HasPod(pods, e.uid) {
      var j :| 0 <= j < |pods| && e in EntryOfPod(pods[j], entries);
      OneEntryPerPod(pods, entries, j, e);
      PodFound(pods, j);
    }
    forall uid | UidIn(orphans, uid) ensures !HasPod(pods, uid) {
      var i :| 0 <= i < |orphans| && orphans[i].uid == uid;
      assert orphans[i] in orphans;
    }
    forall uid | UidIn(kept, uid) ensures HasPod(pods, uid) {
      var i :| 0 <= i < |kept| && kept[i].uid == uid;
      assert kept[i] in kept;
    }
    UniqueConcat(orphans, kept);
  }

  lemma DeploymentStepResult(pods: seq<Pod>, before: seq<Entry>, after: seq<Entry>)
    requires UniquePods(pods) && UniqueUids(before) && IsKnown(before) && DeploymentStep(pods, before, after)
    ensures UniqueUids(after) && IsKnown(after)
    ensures forall e :: e in after && e.status != Terminating ==> Born(pods, before, e)
    ensures forall j :: 0 <= j < |pods| ==> (Active(after, pods[j].uid) <==> Wanted(pods[j], before))
  {
    ReconciledAre(pods, before);
    forall e | e in after && (e.status != Terminating || HasPod(pods, e.uid)) ensures Born(pods, before, e) {
      BornInStep(pods, before, after, e);
    }
    forall i | 0 <= i < |after| ensures after[i].status != Unknown {
      assert after[i] in after;
    }
    forall j | 0 <= j < |pods| ensures Active(after, pods[j].uid) <==> Wanted(pods[j], before) {
      ActiveInStep(pods, before, after, j);
    }
  }

  lemma BornInStep(pods: seq<Pod>, before: seq<Entry>, after: seq<Entry>, e: Entry)
    requires UniquePods(pods) && UniqueUids(before) && DeploymentStep(pods, before, after)
    requires e in after && (e.status != Terminating || HasPod(pods, e.uid))
    ensures Born(pods, before, e)
  {
    ReconciledAre(pods, before);
    if after == Reconciled(pods, before) {
      var j :| 0 <= j < |pods| && e in EntryOfPod(pods[j], before);
      OneEntryPerPod(pods, before, j, e);
    } else {
      var i :| 0 <= i < |before| && before[i] == e;
      assert !ToTerminate(pods, before[i]);
      var j := FirstPod(pods, e.uid);
      assert pods[j].uid == e.uid;
    }
  }

  lemma ActiveInStep(pods: seq<Pod>, before: seq<Entry>, after: seq<Entry>, j: nat)
    requires UniquePods(pods) && UniqueUids(before) && DeploymentStep(pods, before, after) && j < |pods|
    ensures Active(after, pods[j].uid) <==> Wanted(pods[j], before)
  {
    if Active(after, pods[j].uid) {
      ActiveWasWanted(pods, before, after, j);
    }
    if Wanted(pods[j], before) {
      WantedIsActive(pods, before, after, j);
    }
  }

  lemma ActiveWasWanted(pods: seq<Pod>, before: seq<Entry>, after: seq<Entry>, j: nat)
    requires UniquePods(pods) && UniqueUids(before) && DeploymentStep(pods, before, after) && j < |pods|
    requires Active(after, pods[j].uid)
    ensures Wanted(pods[j], before)
  {
    var i :| 0 <= i < |after| && after[i].uid == pods[j].uid && after[i].status != Terminating;
    var e := after[i];
    PodFound(pods, j);
    if after == Reconciled(pods, before) {
      ReconciledAre(pods, before);
      assert e in after;
      var k :| 0 <= k < |pods| && e in EntryOfPod(pods[k], before);
      OneEntryPerPod(pods, before, k, e);
      assert k == j;
    } else {
      EntryFound(before, i);
    }
  }

  lemma WantedIsActive(pods: seq<Pod>, before: seq<Entry>, after: seq<Entry>, j: nat)
    requires UniquePods(pods) && UniqueUids(before) && DeploymentStep(pods, before, after) && j < |pods|
    requires Wanted(pods[j], before)
    ensures Active(after, pods[j].uid)
  {
    var p := pods[j];
    if HasEntry(before, p.uid) {
      var i :| 0 <= i < |before| && before[i].uid == p.uid && before[i].status != Terminating;
      EntryFound(before, i);
    }
    if after == Reconciled(pods, before) {
      ReconciledAre(pods, before);
      var e := EntryOfPod(p, before)[0];
      assert e in EntryOfPod(p, before);
      assert e in after;
    } else {
      assert !ToCreate(pods[j], before);
    }
  }

  lemma EndpointsStepResult(before: seq<Entry>, after: seq<Entry>)
    requires UniqueUids(before) && IsKnown(before) && EndpointsStep(before, after)
    ensures UniqueUids(after) && !Unsettled(after)
    ensures forall e :: e in after ==>
      exists i :: 0 <= i < |before| && before[i].status != Terminating && e == before[i].(status := Ready)
    ensures forall uid :: HasEntry(after, uid) <==> Active(before, uid)
  {
    PromotedAre(before);
    forall e | e in after
      ensures exists i :: 0 <= i < |before| && before[i].status != Terminating && e == before[i].(status := Ready)
    {
      if after == before {
        var i :| 0 <= i < |before| && before[i] == e;
        assert before[i].status == Ready;
      }
    }
    forall i | 0 <= i < |after| ensures after[i].status == Ready {
      assert after[i] in after;
    }
    forall uid ensures HasEntry(after, uid) <==> Active(before, uid) {
      if HasEntry(after, uid) {
        assert after[FirstEntry(after, uid)] in after;
      }
      if Active(before, uid) {
        var i :| 0 <= i < |before| && before[i].uid == uid && before[i].status != Terminating;
        var e := before[i].(status := Ready);
        if after == before {
          assert before[i].status == Ready;
        }
        assert e in after;
        var k :| 0 <= k < |after| && after[k] == e;
        EntryFound(after, k);
      }
    }
  }

  /** Ready entries of existing pods only, one each. */
  ghost predicate Clean(pods: seq<Pod>, entries: seq<Entry>) {
    UniqueUids(entries) && !Unsettled(entries) && forall i :: 0 <= i < |entries| ==> HasPod(pods, entries[i].uid)
  }

  /** A ready entry of a pod, with node and address of that pod or of an entry it had at the start. */
  ghost predicate Meant(pods: seq<Pod>, start: seq<Entry>, e: Entry) {
    && e.status == Ready
    && exists j :: 0 <= j < |pods| && pods[j].uid == e.uid
         && (AtPod(pods[j], e) || exists i :: 0 <= i < |start| && SamePlace(e, start[i]))
  }

  predicate AtPod(p: Pod, e: Entry) { e.nodeName == p.nodeName && e.podIp == p.podIp }

  lemma RoundResult(pods: seq<Pod>, l0: seq<Entry>, l1: seq<Entry>, l2: seq<Entry>)
    requires UniquePods(pods) && UniqueUids(l0) && IsKnown(l0)
    requires DeploymentStep(pods, l0, l1) && EndpointsStep(l1, l2)
    ensures UniqueUids(l1) && IsKnown(l1) && Clean(pods, l2)
    ensures forall e :: e in l2 ==> Meant(pods, l0, e)
    ensures forall j :: 0 <= j < |pods| ==> (HasEntry(l2, pods[j].uid) <==> Wanted(pods[j], l0))
  {
    DeploymentStepResult(pods, l0, l1);
    EndpointsStepResult(l1, l2);
    forall e | e in l2 ensures Meant(pods, l0, e) && HasPod(pods, e.uid) {
      var i :| 0 <= i < |l1| && l1[i].status != Terminating && e == l1[i].(status := Ready);
      assert l1[i] in l1;
      BornIsMeant(pods, l0, l1[i]);
    }
    forall i | 0 <= i < |l2| ensures HasPod(pods, l2[i].uid) {
      assert l2[i] in l2;
    }
  }

  lemma BornIsMeant(pods: seq<Pod>, start: seq<Entry>, e: Entry)
    requires Born(pods, start, e)
    ensures Meant(pods, start, e.(status := Ready)) && HasPod(pods, e.uid)
  {
    var j :| 0 <= j < |pods| && pods[j].uid == e.uid && (SaysNew(pods[j], e) || e in start);
    PodFound(pods, j);
    if e in start {
      var i :| 0 <= i < |start| && start[i] == e;
      assert SamePlace(e.(status := Ready), start[i]);
    } else {
      assert AtPod(pods[j], e.(status := Ready));
    }
  }

  /** Clean, and every running pod has its entry. */
  ghost predicate Settled(pods: seq<Pod>, entries: seq<Entry>) {
    Clean(pods, entries) && forall j :: 0 <= j < |pods| && pods[j].running ==> HasEntry(entries, pods[j].uid)
  }

  lemma SettledIsFixed(pods: seq<Pod>, entries: seq<Entry>)
    requires Settled(pods, entries)
    ensures !Changes(pods, entries) && !Unsettled(entries) && IsKnown(entries)
  {
  }

  /** What two rounds lead to: the settled list whose pods are the running ones and those whose entry was
      not terminating at the start. */
  ghost predicate Final(pods: seq<Pod>, start: seq<Entry>, end: seq<Entry>) {
    && Settled(pods, end)
    && (forall e :: e in end ==> Meant(pods, start, e))
    && (forall j :: 0 <= j < |pods| ==>
          (HasEntry(end, pods[j].uid) <==> pods[j].running || Active(start, pods[j].uid)))
  }

  lemma TwoRounds(pods: seq<Pod>, l0: seq<Entry>, l1: seq<Entry>, l2: seq<Entry>, l3: seq<Entry>, l4: seq<Entry>)
    requires UniquePods(pods) && UniqueUids(l0) && IsKnown(l0)
    requires DeploymentStep(pods, l0, l1) && EndpointsStep(l1, l2)
    requires DeploymentStep(pods, l2, l3) && EndpointsStep(l3, l4)
    ensures UniqueUids(l1) && IsKnown(l1) && UniqueUids(l2) && IsKnown(l2) && UniqueUids(l3) && IsKnown(l3)
    ensures Final(pods, l0, l4)
  {
    RoundResult(pods, l0, l1, l2);
    RoundResult(pods, l2, l3, l4);
    forall e | e in l4 ensures Meant(pods, l0, e) {
      MeantTwice(pods, l0, l2, e);
    }
    forall j | 0 <= j < |pods| ensures HasEntry(l4, pods[j].uid) <==> pods[j].running || Active(l0, pods[j].uid) {
      WantedTwice(pods, l0, l2, j);
    }
  }

  lemma MeantTwice(pods: seq<Pod>, l0: seq<Entry>, l2: seq<Entry>, e: Entry)
    requires Meant(pods, l2, e) && !Unsettled(l2) && forall x :: x in l2 ==> Meant(pods, l0, x)
    ensures Meant(pods, l0, e)
  {
  }

  lemma WantedTwice(pods: seq<Pod>, l0: seq<Entry>, l2: seq<Entry>, j: nat)
    requires j < |pods| && !Unsettled(l2) && (HasEntry(l2, pods[j].uid) <==> Wanted(pods[j], l0))
    ensures Wanted(pods[j], l2) <==> pods[j].running || Active(l0, pods[j].uid)
  {
  }

  // ---- Convergence ----

  ghost predicate Healthy(ds: seq<DeploymentEndpoints>) {
    forall i :: 0 <= i < |ds| ==> UniqueUids(ds[i].entries) && IsKnown(ds[i].entries)
  }

  lemma PassesAreSteps(pods: map<string, seq<Pod>>, ds: seq<DeploymentEndpoints>, i: nat)
    requires i < |ds|
    ensures |AfterDeployments(pods, ds)| == |ds| && |AfterEndpoints(ds)| == |ds|
    ensures AfterDeployments(pods, ds)[i].name == ds[i].name && AfterEndpoints(ds)[i].name == ds[i].name
    ensures DeploymentStep(PodsOf(pods, ds[i].name), ds[i].entries, AfterDeployments(pods, ds)[i].entries)
    ensures EndpointsStep(ds[i].entries, AfterEndpoints(ds)[i].entries)
  {
  }

  /** From any state with known statuses and distinct ids, two rounds of both passes reach the final lists,
      in which every running pod has exactly one ready entry; then both passes change nothing. On the
      way ids stay distinct and no unknown status appears, so the endpoints pass never panics. */
  lemma Converges(pods: map<string, seq<Pod>>, ds: seq<DeploymentEndpoints>)
    requires Healthy(ds) && forall i :: 0 <= i < |ds| ==> UniquePods(PodsOf(pods, ds[i].name))
    ensures var d1 := AfterDeployments(pods, ds);
      var d2 := AfterEndpoints(d1);
      var d3 := AfterDeployments(pods, d2);
      var d4 := AfterEndpoints(d3);
      && Healthy(d1) && Healthy(d2) && Healthy(d3) && Healthy(d4)
      && |d4| == |ds|
      && (forall i :: 0 <= i < |ds| ==>
            d4[i].name == ds[i].name && Final(PodsOf(pods, ds[i].name), ds[i].entries, d4[i].entries))
      && AfterDeployments(pods, d4) == d4 && AfterEndpoints(d4) == d4
  {
    var d1 := AfterDeployments(pods, ds);
    var d2 := AfterEndpoints(d1);
    var d3 := AfterDeployments(pods, d2);
    var d4 := AfterEndpoints(d3);
    forall i | 0 <= i < |ds|
      ensures UniqueUids(d1[i].entries) && IsKnown(d1[i].entries) && UniqueUids(d2[i].entries) && IsKnown(d2[i].entries)
      ensures UniqueUids(d3[i].entries) && IsKnown(d3[i].entries)
      ensures d4[i].name == ds[i].name && Final(PodsOf(pods, ds[i].name), ds[i].entries, d4[i].entries)
      ensures !ChangesAt(pods, d4[i]) && !Unsettled(d4[i].entries)
      ensures UniqueUids(d4[i].entries) && IsKnown(d4[i].entries)
    {
      PassesAreSteps(pods, ds, i);
      PassesAreSteps(pods, d1, i);
      PassesAreSteps(pods, d2, i);
      PassesAreSteps(pods, d3, i);
      TwoRounds(PodsOf(pods, ds[i].name), ds[i].entries, d1[i].entries, d2[i].entries, d3[i].entries, d4[i].entries);
      SettledIsFixed(PodsOf(pods, ds[i].name), d4[i].entries);
    }
  }

  /** If all pods run, the final entries are theirs exactly: one ready entry per pod and nothing else. */
  lemma AllRunning(pods: seq<Pod>, start: seq<Entry>, end: seq<Entry>, uid: string)
    requires Final(pods, start, end) && forall j :: 0 <= j < |pods| ==> pods[j].running
    ensures UidIn(end, uid) <==> HasPod(pods, uid)
    ensures UniqueUids(end) && forall i :: 0 <= i < |end| ==> end[i].status == Ready
  {
  }
}
