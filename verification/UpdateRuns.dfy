/** Runs in which every changelog is one that the service makes.

    Protocol.dfy is about any logs that create first. Here are the consequences for the logs of updates,
    whose surplus is the sum of their drifts. */
module UpdateRuns {
  // A run is one of the update protocol. Beside each intent stand its entities, the update it is committing
  // and those it has finished. They follow the run and do not influence it.

  import opened Topology
  import opened Tables
  import opened TelemetryEntities
  import opened Protocol
  import opened Updates

  /** From the entities `before` to the entities `after`. A first configuration starts from nothing, and a
      disable ends there. */
  datatype Update = Update(collectionId: int, before: Entities, after: Entities,
                           added: ConfigEntries, removed: ConfigEntries)

  const NOTHING := Update(0, NO_ENTITIES, NO_ENTITIES, NO_ENTRIES, NO_ENTRIES)

  datatype Client = Client(collectionId: int, entities: Entities, update: Update, done: seq<Update>)

  const NEWCOMER := Client(0, NO_ENTITIES, NOTHING, [])

  datatype System = System(tables: State, clients: seq<Client>)

  function LogOf(u: Update): seq<Action> { UpdateLog(u.added, u.removed) }

  ghost function GoalOf(G: Graph, u: Update): multiset<Ref> { EntityRefs(G, u.collectionId, u.after) }

  /** An intent with these entities may start this update: from them, and under its collection id unless it
      has none. */
  ghost predicate Starts(G: Graph, collectionId: int, entities: Entities, u: Update) {
    && u.before == entities && (u.collectionId == collectionId || entities == NO_ENTITIES)
    && UpdatesFromTo(G, u.collectionId, u.before, u.after, u.added, u.removed)
  }

  ghost predicate Allowed(G: Graph, s: System, e: Event, u: Update) {
    && Enabled(s.tables, e) && |s.clients| == |s.tables.intents|
    && (e.Begin? ==>
          && Starts(G, s.clients[e.i].collectionId, s.clients[e.i].entities, u)
          && e.log == LogOf(u) && e.goal == GoalOf(G, u))
  }

  function Followed(s: System, e: Event, u: Update): System
    requires Enabled(s.tables, e) && |s.clients| == |s.tables.intents|
  {
    var clients :=
      match e
      case Join => s.clients + [NEWCOMER]
      case Begin(i, _, _) => s.clients[i := s.clients[i].(update := u)]
      case Finish(i) =>
        var c := s.clients[i];
        s.clients[i := Client(c.update.collectionId, c.update.after, c.update, c.done + [c.update])]
      case _ => s.clients;
    System(Next(s.tables, e), clients)
  }

  ghost predicate Step(G: Graph, s: System, s': System) {
    exists e, u :: Allowed(G, s, e, u) && s' == Followed(s, e, u)
  }

  ghost predicate IsRun(G: Graph, run: seq<System>) {
    && run != [] && Initial(run[0].tables) && run[0].clients == []
    && forall k :: 0 <= k < |run| - 1 ==> Step(G, run[k], run[k + 1])
  }

  // ---- Intents and their entities ----

  ghost predicate Matches(G: Graph, intent: Intent, c: Client) {
    && intent.need == EntityRefs(G, c.collectionId, c.entities)
    && (intent.phase != Idle ==>
          && Starts(G, c.collectionId, c.entities, c.update)
          && intent.log == LogOf(c.update) && intent.goal == GoalOf(G, c.update))
  }

  ghost predicate AllMatch(G: Graph, s: System) {
    && |s.clients| == |s.tables.intents|
    && forall i :: 0 <= i < |s.clients| ==> Matches(G, s.tables.intents[i], s.clients[i])
  }

  lemma NothingNeeded(G: Graph, collectionId: int)
    ensures EntityRefs(G, collectionId, NO_ENTITIES) == multiset{}
  {
  }

  /** An event touches no intent but its own. */
  lemma OthersStay(s: System, e: Event, u: Update, i: nat)
    requires Enabled(s.tables, e) && |s.clients| == |s.tables.intents| && i < |s.clients|
    requires e.Join? || e.i != i
    ensures var s' := Followed(s, e, u);
      && |s'.clients| == |s'.tables.intents| == |s.clients| + (if e.Join? then 1 else 0)
      && s'.clients[i] == s.clients[i] && s'.tables.intents[i] == s.tables.intents[i]
  {
  }

  lemma BeginMatches(G: Graph, intent: Intent, c: Client, u: Update)
    requires Matches(G, intent, c) && Starts(G, c.collectionId, c.entities, u)
    ensures Matches(G, intent.(log := LogOf(u), goal := GoalOf(G, u), phase := Committing(0)), c.(update := u))
  {
  }

  lemma FinishMatches(G: Graph, intent: Intent, c: Client, committed: seq<Action>)
    requires Matches(G, intent, c) && intent.phase != Idle
    ensures Matches(G, intent.(committed := committed, phase := Idle, need := intent.goal),
                    Client(c.update.collectionId, c.update.after, c.update, c.done + [c.update]))
  {
  }

  lemma ProgressMatches(G: Graph, intent: Intent, c: Client, phase: Phase, failed: seq<Action>)
    requires Matches(G, intent, c) && intent.phase != Idle
    ensures Matches(G, intent.(phase := phase, failed := failed), c)
  {
  }

  lemma ProgressOf(s: System, e: Event, u: Update) returns (after: Intent)
    requires Enabled(s.tables, e) && |s.clients| == |s.tables.intents| && (e.Do? || e.Undo? || e.Abort?)
    ensures Followed(s, e, u).clients == s.clients && Followed(s, e, u).tables.intents[e.i] == after
    ensures after == s.tables.intents[e.i].(phase := after.phase, failed := after.failed)
    ensures s.tables.intents[e.i].phase != Idle
  {
    after := Next(s.tables, e).intents[e.i];
  }

  lemma BegunMatches(G: Graph, s: System, e: Event, u: Update)
    requires Allowed(G, s, e, u) && e.Begin? && Matches(G, s.tables.intents[e.i], s.clients[e.i])
    ensures var s' := Followed(s, e, u);
      && e.i < |s'.clients| && e.i < |s'.tables.intents|
      && Matches(G, s'.tables.intents[e.i], s'.clients[e.i])
  {
    BeginMatches(G, s.tables.intents[e.i], s.clients[e.i], u);
  }

  lemma FinishedMatches(G: Graph, s: System, e: Event, u: Update)
    requires Allowed(G, s, e, u) && e.Finish? && Matches(G, s.tables.intents[e.i], s.clients[e.i])
    ensures var s' := Followed(s, e, u);
      && e.i < |s'.clients| && e.i < |s'.tables.intents|
      && Matches(G, s'.tables.intents[e.i], s'.clients[e.i])
  {
    var intent := s.tables.intents[e.i];
    FinishMatches(G, intent, s.clients[e.i], intent.committed + intent.log);
  }

  lemma ProgressedMatches(G: Graph, s: System, e: Event, u: Update)
    requires Allowed(G, s, e, u) && (e.Do? || e.Undo? || e.Abort?)
    requires Matches(G, s.tables.intents[e.i], s.clients[e.i])
    ensures var s' := Followed(s, e, u);
      && e.i < |s'.clients| && e.i < |s'.tables.intents|
      && Matches(G, s'.tables.intents[e.i], s'.clients[e.i])
  {
    var after := ProgressOf(s, e, u);
    ProgressMatches(G, s.tables.intents[e.i], s.clients[e.i], after.phase, after.failed);
  }

  lemma JoinedMatches(G: Graph, s: System, u: Update)
    requires |s.clients| == |s.tables.intents|
    ensures var s' := Followed(s, Join, u);
      && |s'.clients| == |s'.tables.intents| == |s.clients| + 1
      && Matches(G, s'.tables.intents[|s.clients|], s'.clients[|s.clients|])
  {
    NothingNeeded(G, 0);
  }

  lemma StepKeepsMatchAt(G: Graph, s: System, e: Event, u: Update, i: nat)
    requires AllMatch(G, s) && Allowed(G, s, e, u) && i < |s.clients| + (if e.Join? then 1 else 0)
    ensures var s' := Followed(s, e, u);
      && i < |s'.clients| && i < |s'.tables.intents|
      && Matches(G, s'.tables.intents[i], s'.clients[i])
  {
    if i == |s.clients| {
      JoinedMatches(G, s, u);
    } else {
      assert Matches(G, s.tables.intents[i], s.clients[i]);
      if e.Join? || e.i != i {
        OthersStay(s, e, u, i);
      } else if e.Begin? {
        BegunMatches(G, s, e, u);
      } else if e.Finish? {
        FinishedMatches(G, s, e, u);
      } else {
        ProgressedMatches(G, s, e, u);
      }
    }
  }

  lemma FollowedSize(s: System, e: Event, u: Update)
    requires Enabled(s.tables, e) && |s.clients| == |s.tables.intents|
    ensures var s' := Followed(s, e, u);
      |s'.clients| == |s'.tables.intents| == |s.clients| + if e.Join? then 1 else 0
  {
  }

  lemma StepKeepsMatch(G: Graph, s: System, e: Event, u: Update)
    requires AllMatch(G, s) && Allowed(G, s, e, u)
    ensures AllMatch(G, Followed(s, e, u))
  {
    var s' := Followed(s, e, u);
    FollowedSize(s, e, u);
    forall i | 0 <= i < |s'.clients| ensures Matches(G, s'.tables.intents[i], s'.clients[i]) {
      StepKeepsMatchAt(G, s, e, u, i);
    }
  }

  lemma {:induction false} RunMatches(G: Graph, run: seq<System>, k: nat)
    requires IsRun(G, run) && k < |run|
    ensures AllMatch(G, run[k])
  {
    if k == 0 {
    } else {
      RunMatches(G, run, k - 1);
      assert Step(G, run[k - 1], run[k - 1 + 1]);
      var e, u :| Allowed(G, run[k - 1], e, u) && run[k] == Followed(run[k - 1], e, u);
      StepKeepsMatch(G, run[k - 1], e, u);
    }
  }

  lemma {:induction false} RunIsReachable(G: Graph, run: seq<System>, k: nat)
    requires IsRun(G, run) && k < |run|
    ensures ReachableState(run[k].tables)
  {
    if k == 0 {
      assert Legal(run[0].tables, []) && After(run[0].tables, []) == run[0].tables;
    } else {
      RunIsReachable(G, run, k - 1);
      assert Step(G, run[k - 1], run[k - 1 + 1]);
      var e, u :| Allowed(G, run[k - 1], e, u) && run[k] == Followed(run[k - 1], e, u);
      NextReachable(run[k - 1].tables, e);
    }
  }

  // ---- Keys that updates count exactly, or at least often enough ----

  /** No update that is being committed drifts `r`, or none drifts it down. */
  ghost predicate Harmless(G: Graph, s: System, r: Ref, exactly: bool) {
    forall i :: 0 <= i < |s.clients| && i < |s.tables.intents| && s.tables.intents[i].phase != Idle ==>
      DriftOk(G, s.clients[i].update, r, exactly)
  }

  ghost predicate DriftOk(G: Graph, u: Update, r: Ref, exactly: bool) {
    if exactly then DriftOf(G, u, r) == 0 else DriftOf(G, u, r) >= 0
  }

  ghost function DriftOf(G: Graph, u: Update, r: Ref): int { Drift(G, u.before, u.after, r) }

  lemma StartCovers(G: Graph, s: System, i: nat, u: Update, r: Ref, exactly: bool)
    requires AllMatch(G, s) && i < |s.clients| && Starts(G, s.clients[i].collectionId, s.clients[i].entities, u)
    requires Reached(s.tables, r, exactly) && DriftOk(G, u, r, exactly)
    ensures CreatesFirst(LogOf(u)) && Covers(s.tables.intents[i], LogOf(u), GoalOf(G, u), r, exactly)
  {
    ReachedInv(s.tables, r, exactly);
    assert Steady(s.tables.intents[i], r, exactly) && Matches(G, s.tables.intents[i], s.clients[i]);
    NothingNeeded(G, u.collectionId);
    NothingNeeded(G, s.clients[i].collectionId);
    UpdateCreatesFirst(G, u.collectionId, u.before, u.after, u.added, u.removed);
    NetOfUpdate(G, u.collectionId, u.before, u.after, u.added, u.removed, r);
  }

  lemma StartedIsHarmless(G: Graph, s: System, e: Event, u: Update, r: Ref, exactly: bool)
    requires Allowed(G, s, e, u) && e.Begin? && Harmless(G, Followed(s, e, u), r, exactly)
    ensures DriftOk(G, u, r, exactly)
  {
    var s' := Followed(s, e, u);
    assert s'.tables.intents[e.i].phase != Idle && s'.clients[e.i].update == u;
  }

  lemma EventCovers(G: Graph, s: System, e: Event, u: Update, r: Ref, exactly: bool)
    requires AllMatch(G, s) && Allowed(G, s, e, u) && Reached(s.tables, r, exactly)
    requires e.Begin? ==> DriftOk(G, u, r, exactly)
    ensures Reached(Next(s.tables, e), r, exactly)
  {
    if e.Begin? {
      StartCovers(G, s, e.i, u, r, exactly);
    }
    ReachedStep(s.tables, e, r, exactly);
  }

  lemma StepCovers(G: Graph, s: System, s': System, r: Ref, exactly: bool)
    requires AllMatch(G, s) && Step(G, s, s') && Reached(s.tables, r, exactly) && Harmless(G, s', r, exactly)
    ensures Reached(s'.tables, r, exactly)
  {
    var e, u :| Allowed(G, s, e, u) && s' == Followed(s, e, u);
    if e.Begin? {
      StartedIsHarmless(G, s, e, u, r, exactly);
    }
    EventCovers(G, s, e, u, r, exactly);
  }

  /** The link to the theorems about covered keys: a run of updates in which the key never drifts covers it
      exactly, and one in which it never drifts down covers it at least. */
  lemma {:induction false} RunCovers(G: Graph, run: seq<System>, k: nat, r: Ref, exactly: bool)
    requires IsRun(G, run) && k < |run| && forall j :: 0 <= j <= k ==> Harmless(G, run[j], r, exactly)
    ensures Reached(run[k].tables, r, exactly)
  {
    if k == 0 {
      InitialReached(r, exactly);
    } else {
      RunCovers(G, run, k - 1, r, exactly);
      RunMatches(G, run, k - 1);
      assert Step(G, run[k - 1], run[k - 1 + 1]);
      assert Harmless(G, run[k], r, exactly);
      StepCovers(G, run[k - 1], run[k], r, exactly);
    }
  }

  /** Sink, reporting and transit keys are covered exactly in every run of updates. */
  lemma RunCoversSupport(G: Graph, run: seq<System>, k: nat, t: Ref)
    requires IsRun(G, run) && k < |run| && IsSupportKey(t.key)
    ensures Reached(run[k].tables, t, true)
  {
    forall j | 0 <= j <= k ensures Harmless(G, run[j], t, true) {
      forall i | 0 <= i < |run[j].clients| && i < |run[j].tables.intents| && run[j].tables.intents[i].phase != Idle
        ensures DriftOk(G, run[j].clients[i].update, t, true)
      {
        SupportNeverDrifts(G, run[j].clients[i].update.before, run[j].clients[i].update.after, t);
      }
    }
    RunCovers(G, run, k, t, true);
  }

  /** Failed undos took no more from the support entries than they left; in particular if none failed. */
  ghost predicate SupportKept(s: System) {
    forall t: Ref {:trigger Lost(s.tables.intents, t)} :: IsSupportKey(t.key) ==> Lost(s.tables.intents, t) >= 0
  }

  lemma {:induction false} NothingLost(intents: seq<Intent>, t: Ref)
    requires forall i :: 0 <= i < |intents| ==> intents[i].failed == []
    ensures Lost(intents, t) == 0
  {
    if intents == [] {
    } else {
      NothingLost(intents[1..], t);
    }
  }

  lemma NoFailedUndoKeepsSupport(s: System)
    requires forall i :: 0 <= i < |s.tables.intents| ==> s.tables.intents[i].failed == []
    ensures SupportKept(s)
  {
    forall t: Ref ensures Lost(s.tables.intents, t) >= 0 {
      NothingLost(s.tables.intents, t);
    }
  }

  lemma RunKeepsSupport(G: Graph, run: seq<System>, k: nat)
    requires IsRun(G, run) && k < |run| && SupportKept(run[k])
    ensures SupportUndamaged(run[k].tables)
  {
    forall t: Ref | IsSupportKey(t.key) ensures Reached(run[k].tables, t, true) && Lost(run[k].tables.intents, t) >= 0 {
      RunCoversSupport(G, run, k, t);
    }
  }

  // ---- Theorems about every run of updates ----

  /** What an idle intent is configured with, and what a busy one is configured with before and after its
      update. */
  ghost predicate Keeps(G: Graph, s: System, i: nat, r: Ref)
    requires i < |s.clients| && i < |s.tables.intents|
  {
    && r in EntityRefs(G, s.clients[i].collectionId, s.clients[i].entities)
    && (s.tables.intents[i].phase != Idle ==> r in GoalOf(G, s.clients[i].update))
  }

  /** The key is counted often enough in the run: because it belongs to a sink, a report or a transit, or
      because no update drifts it down. */
  ghost predicate Safe(G: Graph, run: seq<System>, k: nat, r: Ref)
    requires k < |run|
  {
    && (IsSupportKey(r.key) || forall j :: 0 <= j <= k ==> Harmless(G, run[j], r, false))
    && Lost(run[k].tables.intents, r) >= 0
  }

  lemma SafeIsReached(G: Graph, run: seq<System>, k: nat, r: Ref)
    requires IsRun(G, run) && k < |run| && Safe(G, run, k, r)
    ensures Reached(run[k].tables, r, false)
  {
    if IsSupportKey(r.key) {
      forall j | 0 <= j <= k ensures Harmless(G, run[j], r, false) {
        forall i | 0 <= i < |run[j].clients| && i < |run[j].tables.intents| && run[j].tables.intents[i].phase != Idle
          ensures DriftOk(G, run[j].clients[i].update, r, false)
        {
          SupportNeverDrifts(G, run[j].clients[i].update.before, run[j].clients[i].update.after, r);
        }
      }
    }
    RunCovers(G, run, k, r, false);
  }

  /** What an intent keeps stays installed, whatever all others do. */
  lemma KeptEntryIsInstalled(G: Graph, run: seq<System>, k: nat, i: nat, r: Ref)
    requires IsRun(G, run) && k < |run| && i < |run[k].clients| && i < |run[k].tables.intents|
    requires Safe(G, run, k, r) && Keeps(G, run[k], i, r)
    ensures r in run[k].tables.store.installed
  {
    RunMatches(G, run, k);
    SafeIsReached(G, run, k, r);
    assert Matches(G, run[k].tables.intents[i], run[k].clients[i]);
    NeededEntryIsInstalled(run[k].tables, i, r);
  }

  /** No delete and no undone create of the run meets the error for a non-existing entry. */
  lemma RunDeleteFindsEntry(G: Graph, run: seq<System>, k: nat, e: Event)
    requires IsRun(G, run) && k < |run| && Enabled(run[k].tables, e) && (e.Do? || e.Undo?)
    requires !Asked(run[k].tables, e).isCreate && Safe(G, run, k, Asked(run[k].tables, e).ref)
    ensures Asked(run[k].tables, e).ref in run[k].tables.store.cells
    ensures e.deviceOk ==> Apply(run[k].tables.store, Asked(run[k].tables, e), e.deviceOk).1
  {
    SafeIsReached(G, run, k, Asked(run[k].tables, e).ref);
    DeleteFindsEntry(run[k].tables, e);
  }

  /** The entities whose source `r` is, with all their sinks, reports and transits installed. */
  ghost predicate Complete(G: Graph, s: System, collectionId: int, X: Entities, r: Ref) {
    r in SourceRefs(X) && SupportInstalled(s.tables, G, collectionId, X)
  }

  /** Never a source without its sinks, in every state of every run of updates: a configure-source entry
      that an intent has applied belongs to its entities or, during an update, to the new ones, and all sink,
      reporting and transit entries of these are installed. The intent itself must not have counted this
      source too often or too little before. */
  lemma RunSourceHasSinks(G: Graph, run: seq<System>, k: nat, i: nat, r: Ref)
    requires IsRun(G, run) && k < |run| && i < |run[k].clients| && i < |run[k].tables.intents|
    requires SupportKept(run[k]) && r.key.SourceKey?
    requires SurplusOf(run[k].tables.intents[i], r) == 0 && Standing(run[k].tables.intents[i], r) > 0
    ensures var c := run[k].clients[i];
      || Complete(G, run[k], c.collectionId, c.entities, r)
      || (run[k].tables.intents[i].phase != Idle && c.entities == c.update.before
          && (Complete(G, run[k], c.update.collectionId, c.update.before, r)
              || Complete(G, run[k], c.update.collectionId, c.update.after, r)))
  {
    RunMatches(G, run, k);
    RunKeepsSupport(G, run, k);
    var s, c, intent := run[k].tables, run[k].clients[i], run[k].tables.intents[i];
    assert Matches(G, intent, c);
    if intent.phase == Idle {
      IdleSourceHasSinks(s, i, G, c.collectionId, c.entities, r);
    } else {
      var u := c.update;
      NothingNeeded(G, u.collectionId);
      NothingNeeded(G, c.collectionId);
      InstalledSourceHasSinks(s, i, G, u.collectionId, u.before, u.after, u.added, u.removed, r);
    }
  }

  // ---- Surplus is drift ----

  ghost function DriftSum(G: Graph, done: seq<Update>, r: Ref): int {
    if done == [] then 0 else DriftSum(G, done[..|done| - 1], r) + DriftOf(G, done[|done| - 1], r)
  }

  ghost function AllDrift(G: Graph, clients: seq<Client>, r: Ref): int {
    if clients == [] then 0 else DriftSum(G, clients[0].done, r) + AllDrift(G, clients[1..], r)
  }

  ghost predicate SurplusIsDrift(G: Graph, s: System, r: Ref) {
    && |s.clients| == |s.tables.intents|
    && forall i :: 0 <= i < |s.clients| ==>
         SurplusOf(s.tables.intents[i], r) == DriftSum(G, s.clients[i].done, r)
  }

  /** Finishing an update adds exactly its drift. */
  lemma FinishAddsDrift(G: Graph, s: System, i: nat, r: Ref)
    requires AllMatch(G, s) && Enabled(s.tables, Finish(i))
    ensures SurplusOf(Next(s.tables, Finish(i)).intents[i], r)
         == SurplusOf(s.tables.intents[i], r) + DriftOf(G, s.clients[i].update, r)
  {
    var intent, u := s.tables.intents[i], s.clients[i].update;
    assert Matches(G, intent, s.clients[i]);
    NothingNeeded(G, u.collectionId);
    NothingNeeded(G, s.clients[i].collectionId);
    NetOfUpdate(G, u.collectionId, u.before, u.after, u.added, u.removed, r);
    NetConcat(intent.committed, intent.log, r);
  }

  lemma OneMoreDone(G: Graph, done: seq<Update>, u: Update, r: Ref)
    ensures DriftSum(G, done + [u], r) == DriftSum(G, done, r) + DriftOf(G, u, r)
  {
    assert (done + [u])[..|done|] == done;
  }

  lemma UnfinishedKeepsSurplus(s: System, e: Event, u: Update, r: Ref)
    requires Enabled(s.tables, e) && |s.clients| == |s.tables.intents| && !e.Join? && !e.Finish?
    ensures var s' := Followed(s, e, u);
      && |s'.clients| == |s'.tables.intents| == |s.clients| && s'.clients[e.i].done == s.clients[e.i].done
      && SurplusOf(s'.tables.intents[e.i], r) == SurplusOf(s.tables.intents[e.i], r)
  {
  }

  lemma FinishedClient(s: System, i: nat, u: Update)
    requires Enabled(s.tables, Finish(i)) && |s.clients| == |s.tables.intents|
    ensures var s' := Followed(s, Finish(i), u);
      && |s'.clients| == |s'.tables.intents| == |s.clients|
      && s'.clients[i].done == s.clients[i].done + [s.clients[i].update]
      && s'.tables.intents[i] == Next(s.tables, Finish(i)).intents[i]
  {
  }

  lemma OwnSurplus(G: Graph, s: System, e: Event, u: Update, r: Ref)
    requires AllMatch(G, s) && SurplusIsDrift(G, s, r) && Enabled(s.tables, e) && !e.Join?
    ensures var s' := Followed(s, e, u);
      && |s'.clients| == |s'.tables.intents| == |s.clients|
      && SurplusOf(s'.tables.intents[e.i], r) == DriftSum(G, s'.clients[e.i].done, r)
  {
    if e.Finish? {
      FinishedClient(s, e.i, u);
      FinishAddsDrift(G, s, e.i, r);
      OneMoreDone(G, s.clients[e.i].done, s.clients[e.i].update, r);
    } else {
      UnfinishedKeepsSurplus(s, e, u, r);
    }
  }

  lemma StepKeepsSurplus(G: Graph, s: System, e: Event, u: Update, r: Ref)
    requires AllMatch(G, s) && SurplusIsDrift(G, s, r) && Allowed(G, s, e, u)
    ensures SurplusIsDrift(G, Followed(s, e, u), r)
  {
    var s' := Followed(s, e, u);
    if e.Join? {
      assert s'.clients[|s.clients|] == NEWCOMER && s'.tables.intents[|s.clients|] == FRESH;
    } else {
      OwnSurplus(G, s, e, u, r);
    }
    forall i | 0 <= i < |s'.clients|
      ensures SurplusOf(s'.tables.intents[i], r) == DriftSum(G, s'.clients[i].done, r)
    {
      if i < |s.clients| && (e.Join? || i != e.i) {
        OthersStay(s, e, u, i);
      }
    }
  }

  lemma {:induction false} RunSurplus(G: Graph, run: seq<System>, k: nat, r: Ref)
    requires IsRun(G, run) && k < |run|
    ensures SurplusIsDrift(G, run[k], r)
  {
    if k == 0 {
    } else {
      RunSurplus(G, run, k - 1, r);
      RunMatches(G, run, k - 1);
      assert Step(G, run[k - 1], run[k - 1 + 1]);
      var e, u :| Allowed(G, run[k - 1], e, u) && run[k] == Followed(run[k - 1], e, u);
      StepKeepsSurplus(G, run[k - 1], e, u, r);
    }
  }

  lemma {:induction false} SumOfSurplus(G: Graph, intents: seq<Intent>, clients: seq<Client>, r: Ref)
    requires |clients| == |intents|
    requires forall i :: 0 <= i < |clients| ==> SurplusOf(intents[i], r) == DriftSum(G, clients[i].done, r)
    ensures Surplus(intents, r) == AllDrift(G, clients, r)
  {
    if clients == [] {
    } else {
      SumOfSurplus(G, intents[1..], clients[1..], r);
    }
  }

  /** When an entry is installed, in every state of every run of updates, with any failed undos: exactly
      while what the intents need and have applied, together with the drift of all finished updates and what
      failed undos left or took, is positive. */
  lemma WhenInstalledInRun(G: Graph, run: seq<System>, k: nat, r: Ref)
    requires IsRun(G, run) && k < |run|
    ensures var s := run[k];
      r in s.tables.store.installed
      <==> Demand(s.tables.intents, r) + AllDrift(G, s.clients, r) + Lost(s.tables.intents, r) >= 1
  {
    RunIsReachable(G, run, k);
    RunSurplus(G, run, k, r);
    SumOfSurplus(G, run[k].tables.intents, run[k].clients, r);
    WhenInstalled(run[k].tables, r);
  }

  /** So with all intents idle an entry survives exactly if drift and failed undos together have not taken as
      much from its count as all intents need of it. */
  lemma WhenSurvivesInRun(G: Graph, run: seq<System>, k: nat, r: Ref)
    requires IsRun(G, run) && k < |run|
    requires forall i :: 0 <= i < |run[k].tables.intents| ==> run[k].tables.intents[i].phase == Idle
    ensures var s := run[k];
      r in s.tables.store.installed
      <==> Needs(s.tables.intents, r) + AllDrift(G, s.clients, r) + Lost(s.tables.intents, r) >= 1
  {
    WhenInstalledInRun(G, run, k, r);
    IdleDemand(run[k].tables.intents, r);
  }
}
