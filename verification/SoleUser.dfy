/** A sole user configures, updates and disables: what updates that are not clean do to its own entries. */
module SoleUser {
  import opened Topology
  import opened Tables
  import opened Gathering
  import opened TelemetryEntities
  import opened Protocol
  import opened Updates

  // ---- Commits that no switch refuses ----

  function AllOk(n: nat): seq<bool> { seq(n, _ => true) }

  /** Then only a delete that finds no entry can stop a commit. */
  lemma {:induction false} StopsAtMissingEntry(s: Store, log: seq<Action>)
    requires Consistent(s)
    ensures var (s', done) := Commit(s, log, AllOk(|log|));
      done < |log| ==> !log[done].isCreate && log[done].ref !in s'.cells
    decreases |log|
  {
    if log == [] {
    } else {
      var (s', ok) := Apply(s, log[0], true);
      ApplyEffect(s, log[0], true, log[0].ref);
      if ok {
        assert AllOk(|log|)[1..] == AllOk(|log[1..]|);
        StopsAtMissingEntry(s', log[1..]);
      }
    }
  }

  lemma NetAfterStop(log: seq<Action>, m: nat, k: nat)
    requires CreatesUpTo(log, m) && m <= k < |log|
    ensures Net(log, log[k].ref) <= Net(log[..k], log[k].ref) - 1
  {
    var ref := log[k].ref;
    NetConcat(log[..k], log[k..], ref);
    assert log == log[..k] + log[k..];
    DeletesSubtract(log[k..][1..], ref);
  }

  lemma CompletedLeavesNoneNegative(s: Store, log: seq<Action>, deviceOk: seq<bool>, ref: Ref)
    requires Consistent(s) && |deviceOk| == |log| && Commit(s, log, deviceOk).1 == |log|
    ensures Count(s, ref) + Net(log, ref) >= 0
  {
    CommitCounts(s, log, deviceOk, ref);
    assert log[..|log|] == log;
  }

  /** A log that creates first completes exactly if it would leave no count negative. */
  lemma WhenCommitCompletes(s: Store, log: seq<Action>)
    requires Consistent(s) && CreatesFirst(log)
    ensures Commit(s, log, AllOk(|log|)).1 == |log| <==> forall ref :: Count(s, ref) + Net(log, ref) >= 0
  {
    var (s', done) := Commit(s, log, AllOk(|log|));
    if done == |log| {
      forall ref ensures Count(s, ref) + Net(log, ref) >= 0 {
        CompletedLeavesNoneNegative(s, log, AllOk(|log|), ref);
      }
    } else {
      StopsAtMissingEntry(s, log);
      var m :| CreatesUpTo(log, m);
      NetAfterStop(log, m, done);
      CommitCounts(s, log, AllOk(|log|), log[done].ref);
      assert Count(s, log[done].ref) + Net(log, log[done].ref) < 0;
    }
  }

  // ---- Commits as runs ----

  /** Where intent `i` stands when the rest of its log has been committed as far as it goes. */
  function Stopped(s: State, i: nat, k: nat, deviceOk: seq<bool>): State
    requires i < |s.intents| && k <= |s.intents[i].log| && |deviceOk| == |s.intents[i].log| - k
  {
    var intent := s.intents[i];
    var (store, done) := Commit(s.store, intent.log[k..], deviceOk);
    var phase := if done == |deviceOk| then Committing(|intent.log|) else RollingBack(k + done);
    State(store, s.intents[i := intent.(phase := phase)])
  }

  /** The events of a commit do to the store what the commit does. */
  lemma {:induction false} CommitIsRun(s: State, i: nat, k: nat, deviceOk: seq<bool>)
    requires ReachableState(s) && i < |s.intents| && s.intents[i].phase == Committing(k)
    requires k <= |s.intents[i].log| && |deviceOk| == |s.intents[i].log| - k
    ensures ReachableState(Stopped(s, i, k, deviceOk))
    decreases |deviceOk|
  {
    var intent := s.intents[i];
    if deviceOk == [] {
      assert Stopped(s, i, k, deviceOk) == s;
    } else {
      var e := Do(i, deviceOk[0]);
      NextReachable(s, e);
      var rest := intent.log[k..];
      var (store, ok) := Apply(s.store, rest[0], deviceOk[0]);
      var phase := if ok then Committing(k + 1) else RollingBack(k);
      var s' := State(store, s.intents[i := intent.(phase := phase)]);
      assert Next(s, e) == s';
      if ok {
        CommitIsRun(s', i, k + 1, deviceOk[1..]);
        assert rest[1..] == intent.log[k + 1..];
        var end := Stopped(s, i, k, deviceOk);
        assert end.intents == Stopped(s', i, k + 1, deviceOk[1..]).intents;
      }
    }
  }

  /** An intent that has committed one more log. */
  function Committed(intent: Intent, log: seq<Action>, goal: multiset<Ref>): Intent {
    intent.(committed := intent.committed + log, log := log, phase := Idle, need := goal, goal := goal)
  }

  /** The state after intent `i` has committed one more log while the others were idle. */
  lemma CommitOne(s: State, i: nat, log: seq<Action>, goal: multiset<Ref>) returns (s': State)
    requires ReachableState(s) && Consistent(s.store) && i < |s.intents| && s.intents[i].phase == Idle
    requires CreatesFirst(log) && forall r :: Count(s.store, r) + Net(log, r) >= 0
    ensures ReachableState(s') && Consistent(s'.store)
    ensures s'.intents == s.intents[i := Committed(s.intents[i], log, goal)]
    ensures forall r :: Count(s'.store, r) == Count(s.store, r) + Net(log, r)
  {
    NextReachable(s, Begin(i, log, goal));
    var s1 := Next(s, Begin(i, log, goal));
    CommitIsRun(s1, i, 0, AllOk(|log|));
    var s2 := Stopped(s1, i, 0, AllOk(|log|));
    assert log[0..] == log;
    WhenCommitCompletes(s.store, log);
    NextReachable(s2, Finish(i));
    s' := Next(s2, Finish(i));
    CommitLeaves(s.store, log);
  }

  lemma CommitLeaves(s: Store, log: seq<Action>)
    requires Consistent(s) && Commit(s, log, AllOk(|log|)).1 == |log|
    ensures var s' := Commit(s, log, AllOk(|log|)).0;
      Consistent(s') && forall r :: Count(s', r) == Count(s, r) + Net(log, r)
  {
    var s' := Commit(s, log, AllOk(|log|)).0;
    assert log[..|log|] == log;
    CommitCounts(s, log, AllOk(|log|), Ref("", TransitKey));
    forall r ensures Count(s', r) == Count(s, r) + Net(log, r) {
      CommitCounts(s, log, AllOk(|log|), r);
    }
  }

  // ---- What is removed was there ----

  lemma {:induction false} GatherPointwise<A(!new), R>(a: set<A>, f: A -> multiset<R>, b: set<A>, g: A -> multiset<R>,
                                                       r: R)
    requires a <= b && forall x :: x in a ==> f(x)[r] <= g(x)[r]
    ensures Gather(a, f)[r] <= Gather(b, g)[r]
    decreases b
  {
    if b == {} {
    } else {
      var y :| y in b;
      GatherStep(b, g, y);
      GatherPart(a, f, y);
      GatherPointwise(a - {y}, f, b - {y}, g, r);
    }
  }

  lemma DifferenceIsPart(G: Graph, collectionId: int, E: Entities, F: Entities, r: Ref)
    ensures EntityRefs(G, collectionId, Difference(E, F))[r] <= EntityRefs(G, collectionId, E)[r]
  {
    var R := Difference(E, F);
    GatherPointwise(R.sinks, SinkPart(G), E.sinks, SinkPart(G), r);
    GatherPointwise(R.sinks, ReportingPart(collectionId), E.sinks, ReportingPart(collectionId), r);
    GatherPointwise(R.transits, TransitPart(), E.transits, TransitPart(), r);
    GatherPointwise(R.sources.Keys, ActivatePart(G), E.sources.Keys, ActivatePart(G), r);
    SplitSources(E, F);
  }

  // ---- Configure, update, disable ----

  lemma ApplyCreatesFirst(ce: ConfigEntries)
    ensures CreatesFirst(ApplyLog(ce))
  {
    assert CreatesUpTo(ApplyLog(ce), |ApplyLog(ce)|);
  }

  lemma DeleteCreatesFirst(ce: ConfigEntries)
    ensures CreatesFirst(DeleteLog(ce))
  {
    assert CreatesUpTo(DeleteLog(ce), 0);
  }

  /** The sole user has configured `E`, and each count is its need. */
  lemma ConfiguredSoleUser(G: Graph, collectionId: int, E: Entities, created: ConfigEntries) returns (s: State)
    requires CompiledFrom(G, collectionId, E, created)
    ensures ReachableState(s) && Consistent(s.store) && |s.intents| == 1 && s.intents[0].phase == Idle
    ensures s.intents[0].failed == [] && s.intents[0].need == EntityRefs(G, collectionId, E)
    ensures forall r :: Count(s.store, r) == EntityRefs(G, collectionId, E)[r]
  {
    var s0 := State(Store(map[], map[], map[]), []);
    assert Initial(s0) && Legal(s0, []) && After(s0, []) == s0;
    NextReachable(s0, Join);
    var s1 := Next(s0, Join);
    assert s1.intents == [FRESH];
    ApplyCreatesFirst(created);
    forall r ensures Net(ApplyLog(created), r) == EntityRefs(G, collectionId, E)[r] {
      NetOfApply(G, collectionId, E, created, r);
    }
    s := CommitOne(s1, 0, ApplyLog(created), EntityRefs(G, collectionId, E));
  }

  lemma UpdateLeavesNothingNegative(G: Graph, collectionId: int, E: Entities, F: Entities,
                                    added: ConfigEntries, removed: ConfigEntries, r: Ref)
    requires UpdatesFromTo(G, collectionId, E, F, added, removed)
    ensures EntityRefs(G, collectionId, E)[r] + Net(UpdateLog(added, removed), r)
         == EntityRefs(G, collectionId, F)[r] + Drift(G, E, F, r) >= 0
  {
    NetOfUpdate(G, collectionId, E, F, added, removed, r);
    UpdateEquation(G, collectionId, E, F, r);
    DifferenceIsPart(G, collectionId, E, F, r);
  }

  /** The sole user has configured `E` and updated to `F`. Both commits succeed, and each count is off by
      the drift. */
  lemma UpdatedSoleUser(G: Graph, collectionId: int, E: Entities, F: Entities,
                        created: ConfigEntries, added: ConfigEntries, removed: ConfigEntries) returns (s: State)
    requires CompiledFrom(G, collectionId, E, created)
    requires UpdatesFromTo(G, collectionId, E, F, added, removed)
    ensures ReachableState(s) && Consistent(s.store) && |s.intents| == 1 && s.intents[0].phase == Idle
    ensures s.intents[0].failed == [] && s.intents[0].need == EntityRefs(G, collectionId, F)
    ensures forall r :: Count(s.store, r) == EntityRefs(G, collectionId, F)[r] + Drift(G, E, F, r)
  {
    var configured := ConfiguredSoleUser(G, collectionId, E, created);
    UpdateCreatesFirst(G, collectionId, E, F, added, removed);
    forall r
      ensures EntityRefs(G, collectionId, E)[r] + Net(UpdateLog(added, removed), r)
           == EntityRefs(G, collectionId, F)[r] + Drift(G, E, F, r) >= 0
    {
      UpdateLeavesNothingNegative(G, collectionId, E, F, added, removed, r);
    }
    s := CommitOne(configured, 0, UpdateLog(added, removed), EntityRefs(G, collectionId, F));
  }

  /** The disable takes the need off every count and leaves the drift. */
  lemma DisableLeavesDrift(s: Store, G: Graph, collectionId: int, E: Entities, F: Entities, deleted: ConfigEntries,
                           r: Ref)
    requires CompiledFrom(G, collectionId, F, deleted)
    requires Count(s, r) == EntityRefs(G, collectionId, F)[r] + Drift(G, E, F, r)
    ensures Count(s, r) + Net(DeleteLog(deleted), r) == Drift(G, E, F, r)
  {
    NetOfDelete(G, collectionId, F, deleted, r);
  }

  /** After the update the user may disable. If all switches answer, the disable completes exactly if no
      count has drifted down; */
  lemma WhenDisableCompletes(s: Store, G: Graph, collectionId: int, E: Entities, F: Entities, deleted: ConfigEntries)
    requires Consistent(s) && CompiledFrom(G, collectionId, F, deleted)
    requires forall r :: Count(s, r) == EntityRefs(G, collectionId, F)[r] + Drift(G, E, F, r)
    ensures Commit(s, DeleteLog(deleted), AllOk(|DeleteLog(deleted)|)).1 == |DeleteLog(deleted)|
      <==> forall r :: Drift(G, E, F, r) >= 0
  {
    var log := DeleteLog(deleted);
    DeleteCreatesFirst(deleted);
    WhenCommitCompletes(s, log);
    forall r ensures Count(s, r) + Net(log, r) == Drift(G, E, F, r) {
      DisableLeavesDrift(s, G, collectionId, E, F, deleted, r);
    }
    if forall r :: Drift(G, E, F, r) >= 0 {
      forall r ensures Count(s, r) + Net(log, r) >= 0 {
        assert Drift(G, E, F, r) >= 0;
      }
    } else {
      var r :| Drift(G, E, F, r) < 0;
      assert Count(s, r) + Net(log, r) < 0;
    }
  }

  /** otherwise it never completes, whatever the switches answer. */
  lemma DisableNeverCompletes(s: Store, G: Graph, collectionId: int, E: Entities, F: Entities, deleted: ConfigEntries,
                              deviceOk: seq<bool>, lost: Ref)
    requires Consistent(s) && CompiledFrom(G, collectionId, F, deleted) && |deviceOk| == |DeleteLog(deleted)|
    requires Count(s, lost) == EntityRefs(G, collectionId, F)[lost] + Drift(G, E, F, lost)
    requires Drift(G, E, F, lost) < 0
    ensures Commit(s, DeleteLog(deleted), deviceOk).1 < |deviceOk|
  {
    DisableLeavesDrift(s, G, collectionId, E, F, deleted, lost);
    if Commit(s, DeleteLog(deleted), deviceOk).1 == |deviceOk| {
      CompletedLeavesNoneNegative(s, DeleteLog(deleted), deviceOk, lost);
    }
  }

  /** Otherwise the run goes on to a delete that finds no entry. */
  lemma DisableMissesEntry(G: Graph, collectionId: int, E: Entities, F: Entities,
                           created: ConfigEntries, added: ConfigEntries, removed: ConfigEntries,
                           deleted: ConfigEntries, lost: Ref)
    returns (s: State, missing: Action)
    requires CompiledFrom(G, collectionId, E, created) && CompiledFrom(G, collectionId, F, deleted)
    requires UpdatesFromTo(G, collectionId, E, F, added, removed)
    requires Drift(G, E, F, lost) < 0
    ensures ReachableState(s) && |s.intents| == 1 && s.intents[0].failed == []
    ensures s.intents[0].log == DeleteLog(deleted) && s.intents[0].phase.RollingBack?
    ensures s.intents[0].phase.left < |s.intents[0].log| && missing == s.intents[0].log[s.intents[0].phase.left]
    ensures !missing.isCreate && missing.ref !in s.store.cells
  {
    var updated := UpdatedSoleUser(G, collectionId, E, F, created, added, removed);
    WhenDisableCompletes(updated.store, G, collectionId, E, F, deleted);
    var log := DeleteLog(deleted);
    NextReachable(updated, Begin(0, log, multiset{}));
    var begun := Next(updated, Begin(0, log, multiset{}));
    CommitIsRun(begun, 0, 0, AllOk(|log|));
    s := Stopped(begun, 0, 0, AllOk(|log|));
    assert log[0..] == log;
    StopsAtMissingEntry(updated.store, log);
    missing := log[s.intents[0].phase.left];
  }

  /** The usual way to drift down: a kept edge that only loses configs. Its activation is removed from the
      switch while the user still needs it. */
  lemma LosingEdgeIsDeactivated(G: Graph, collectionId: int, E: Entities, F: Entities,
                                created: ConfigEntries, added: ConfigEntries, removed: ConfigEntries, e: Edge)
    returns (s: State)
    requires CompiledFrom(G, collectionId, E, created)
    requires UpdatesFromTo(G, collectionId, E, F, added, removed)
    requires EdgesAreLinks(G, E) && EdgesAreLinks(G, F) && e in GainOnly(F, E)
    ensures var r := Ref(e.from, ActivateKey(EdgePort(G, e)));
      && ReachableState(s) && |s.intents| == 1 && s.intents[0].phase == Idle && s.intents[0].failed == []
      && r in s.intents[0].need && r !in s.store.installed && Drift(G, E, F, r) == -1
  {
    var r := Ref(e.from, ActivateKey(EdgePort(G, e)));
    s := UpdatedSoleUser(G, collectionId, E, F, created, added, removed);
    ActivateDrift(G, E, F, e);
    ActivationIsNeededOnce(G, collectionId, E, F, e);
    assert Count(s.store, r) == EntityRefs(G, collectionId, F)[r] + Drift(G, E, F, r);
  }

  lemma ActivationIsNeededOnce(G: Graph, collectionId: int, E: Entities, F: Entities, e: Edge)
    requires EdgesAreLinks(G, E) && EdgesAreLinks(G, F) && e in F.sources
    ensures EntityRefs(G, collectionId, F)[Ref(e.from, ActivateKey(EdgePort(G, e)))] == 1
  {
    ActivateCount(G, E, F, F.sources.Keys, e);
    SupportKeysOnly(G, collectionId, F, Ref(e.from, ActivateKey(EdgePort(G, e))));
    SourceKeysOnly(F, Ref(e.from, ActivateKey(EdgePort(G, e))));
  }

  /** The other way: a config that occurs more often after the update than before, on a device with one
      kept edge. */
  lemma SourceDrift(G: Graph, E: Entities, F: Entities, e: Edge, c: SourceConfig)
    requires Kept(E, F, e) && forall x :: Kept(E, F, x) && x.from == e.from ==> x == e
    requires c in E.sources[e] && c in F.sources[e]
    ensures Drift(G, E, F, SourceRef(e.from, c)) == (multiset(E.sources[e])[c] as int) - multiset(F.sources[e])[c]
  {
    DriftKeys(G, E, F, SourceRef(e.from, c));
    DriftKeys(G, F, E, SourceRef(e.from, c));
    CommonAt(E, F, e, c);
    CommonAt(F, E, e, c);
  }

  lemma CommonAt(E: Entities, F: Entities, e: Edge, c: SourceConfig)
    requires Kept(E, F, e) && forall x :: Kept(E, F, x) && x.from == e.from ==> x == e
    requires c in E.sources[e] && c in F.sources[e]
    ensures CommonRefs(E, F)[SourceRef(e.from, c)] == multiset(E.sources[e])[c]
  {
    var r, kept := SourceRef(e.from, c), E.sources.Keys * F.sources.Keys;
    forall x | x in kept && x != e ensures CommonPart(E, F)(x)[r] == 0 {
      assert Kept(E, F, x);
      ConfigCount(x.from, Common(E.sources[x], F.sources[x]), r);
    }
    GatherOnly(kept, CommonPart(E, F), e, r);
    ConfigCount(e.from, Common(E.sources[e], F.sources[e]), r);
    CommonCount(E.sources[e], F.sources[e], c);
  }

  /** So a config listed once before the update and twice after it drifts down. */
  lemma DuplicatedConfigDrifts(G: Graph, e: Edge, c: SourceConfig)
    ensures Drift(G, Entities(map[e := [c]], {}, {}), Entities(map[e := [c, c]], {}, {}), SourceRef(e.from, c)) == -1
  {
    SourceDrift(G, Entities(map[e := [c]], {}, {}), Entities(map[e := [c, c]], {}, {}), e, c);
    assert multiset([c])[c] == 1 && multiset([c, c])[c] == 2;
  }
}
