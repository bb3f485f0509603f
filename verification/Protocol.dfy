/** The update protocol under concurrency: many intents commit and roll back at the same time. */
module Protocol {
  // All intents work on the same counters and switches. One event is one action of one intent, since an
  // action runs under the mutex of its device; between two actions of an intent anything may happen.

  import opened Tables

  datatype Phase =
    | Idle
    | Committing(done: nat)    // the first `done` actions of the log are applied
    | RollingBack(left: nat)   // the commit failed and `left` actions still have to be undone

  /** `need` and `goal` are the entries that the intent is configured with and is changing to. They do
      not influence what happens. */
  datatype Intent = Intent(
    committed: seq<Action>,    // the logs of its finished commits
    failed: seq<Action>,       // the actions whose undo failed
    log: seq<Action>,
    phase: Phase,
    need: multiset<Ref>,
    goal: multiset<Ref>)

  datatype State = State(store: Store, intents: seq<Intent>)

  datatype Event =
    | Join
    | Begin(i: nat, log: seq<Action>, goal: multiset<Ref>)
    | Do(i: nat, deviceOk: bool)
    | Finish(i: nat)
    | Undo(i: nat, deviceOk: bool)
    | Abort(i: nat)

  const FRESH := Intent([], [], [], Idle, multiset{}, multiset{})

  predicate Enabled(s: State, e: Event) {
    match e
    case Join => true
    case Begin(i, _, _) => i < |s.intents| && s.intents[i].phase == Idle
    case Do(i, _) =>
      i < |s.intents| && s.intents[i].phase.Committing? && s.intents[i].phase.done < |s.intents[i].log|
    case Finish(i) =>
      i < |s.intents| && s.intents[i].phase.Committing? && s.intents[i].phase.done == |s.intents[i].log|
    case Undo(i, _) =>
      i < |s.intents| && s.intents[i].phase.RollingBack? && 0 < s.intents[i].phase.left <= |s.intents[i].log|
    case Abort(i) => i < |s.intents| && s.intents[i].phase == RollingBack(0)
  }

  /** The action an event asks of the counters. */
  function Asked(s: State, e: Event): Action
    requires Enabled(s, e) && (e.Do? || e.Undo?)
  {
    var intent := s.intents[e.i];
    if e.Do? then intent.log[intent.phase.done] else intent.log[intent.phase.left - 1].Reverse()
  }

  function Next(s: State, e: Event): State
    requires Enabled(s, e)
  {
    match e
    case Join => s.(intents := s.intents + [FRESH])
    case Begin(i, log, goal) =>
      s.(intents := s.intents[i := s.intents[i].(log := log, goal := goal, phase := Committing(0))])
    case Do(i, deviceOk) =>
      var intent := s.intents[i];
      var (store, ok) := Apply(s.store, Asked(s, e), deviceOk);
      var phase := if ok then Committing(intent.phase.done + 1) else RollingBack(intent.phase.done);
      State(store, s.intents[i := intent.(phase := phase)])
    case Finish(i) =>
      var intent := s.intents[i];
      var committed := intent.committed + intent.log;
      s.(intents := s.intents[i := intent.(committed := committed, phase := Idle, need := intent.goal)])
    case Undo(i, deviceOk) =>
      var intent := s.intents[i];
      var left := intent.phase.left - 1;
      var (store, ok) := Apply(s.store, Asked(s, e), deviceOk);
      var failed := if ok then intent.failed else intent.failed + [intent.log[left]];
      State(store, s.intents[i := intent.(phase := RollingBack(left), failed := failed)])
    case Abort(i) =>
      s.(intents := s.intents[i := s.intents[i].(phase := Idle)])
  }

  ghost predicate Initial(s: State) {
    s.store == Store(map[], map[], map[]) && s.intents == []
  }

  /** The events can happen one after the other from `s`. */
  ghost predicate Legal(s: State, events: seq<Event>)
    decreases |events|
  {
    events == [] || (Enabled(s, events[0]) && Legal(Next(s, events[0]), events[1..]))
  }

  ghost function After(s: State, events: seq<Event>): State
    requires Legal(s, events)
    decreases |events|
  {
    if events == [] then s else After(Next(s, events[0]), events[1..])
  }

  // ---- Accounting ----

  /** What an intent has applied of its current log. */
  function Applied(intent: Intent): seq<Action> {
    match intent.phase
    case Idle => []
    case Committing(done) => if done <= |intent.log| then intent.log[..done] else []
    case RollingBack(left) => if left <= |intent.log| then intent.log[..left] else []
  }

  /** What an intent adds to the count of `ref`. */
  function Contribution(intent: Intent, ref: Ref): int {
    Net(intent.committed, ref) + Net(Applied(intent), ref) + Net(intent.failed, ref)
  }

  function Total(intents: seq<Intent>, ref: Ref): int {
    if intents == [] then 0 else Contribution(intents[0], ref) + Total(intents[1..], ref)
  }

  lemma {:induction false} TotalUpdate(intents: seq<Intent>, i: nat, x: Intent, ref: Ref)
    requires i < |intents|
    ensures Total(intents[i := x], ref) == Total(intents, ref) - Contribution(intents[i], ref) + Contribution(x, ref)
  {
    if i == 0 {
      assert intents[i := x][1..] == intents[1..];
    } else {
      TotalUpdate(intents[1..], i - 1, x, ref);
      assert intents[i := x][1..] == intents[1..][i - 1 := x];
    }
  }

  lemma {:induction false} TotalAppend(intents: seq<Intent>, x: Intent, ref: Ref)
    ensures Total(intents + [x], ref) == Total(intents, ref) + Contribution(x, ref)
  {
    if intents == [] {
      assert intents + [x] == [x];
    } else {
      TotalAppend(intents[1..], x, ref);
      assert (intents + [x])[1..] == intents[1..] + [x];
    }
  }

  lemma NetOfOne(a: Action, ref: Ref)
    ensures Net([a], ref) == if a.ref == ref then a.Delta() else 0
  {
    assert [a][1..] == [];
  }

  lemma NetOfNext(log: seq<Action>, k: nat, ref: Ref)
    requires k < |log|
    ensures Net(log[..k + 1], ref) == Net(log[..k], ref) + if log[k].ref == ref then log[k].Delta() else 0
  {
    NetOfOne(log[k], ref);
    NetConcat(log[..k], [log[k]], ref);
    assert log[..k + 1] == log[..k] + [log[k]];
  }

  lemma DoEffect(s: State, i: nat, deviceOk: bool, ref: Ref)
    requires Consistent(s.store) && Enabled(s, Do(i, deviceOk))
    ensures var s' := Next(s, Do(i, deviceOk));
      && Consistent(s'.store)
      && Contribution(s'.intents[i], ref) - Contribution(s.intents[i], ref)
           == Count(s'.store, ref) - Count(s.store, ref)
  {
    var intent := s.intents[i];
    ApplyEffect(s.store, intent.log[intent.phase.done], deviceOk, ref);
    NetOfNext(intent.log, intent.phase.done, ref);
  }

  lemma UndoEffect(s: State, i: nat, deviceOk: bool, ref: Ref)
    requires Consistent(s.store) && Enabled(s, Undo(i, deviceOk))
    ensures var s' := Next(s, Undo(i, deviceOk));
      && Consistent(s'.store)
      && Contribution(s'.intents[i], ref) - Contribution(s.intents[i], ref)
           == Count(s'.store, ref) - Count(s.store, ref)
  {
    var intent := s.intents[i];
    var k := intent.phase.left - 1;
    ApplyEffect(s.store, intent.log[k].Reverse(), deviceOk, ref);
    NetOfNext(intent.log, k, ref);
    NetOfOne(intent.log[k], ref);
    NetConcat(intent.failed, [intent.log[k]], ref);
  }

  /** An event changes the contribution of its own intent as it changes the count. */
  lemma EventEffect(s: State, e: Event, ref: Ref)
    requires Consistent(s.store) && Enabled(s, e) && (e.Do? || e.Undo?)
    ensures var s' := Next(s, e);
      && Consistent(s'.store)
      && Contribution(s'.intents[e.i], ref) - Contribution(s.intents[e.i], ref)
           == Count(s'.store, ref) - Count(s.store, ref)
  {
    if e.Do? {
      DoEffect(s, e.i, e.deviceOk, ref);
    } else {
      UndoEffect(s, e.i, e.deviceOk, ref);
    }
  }

  lemma BookkeepingEffect(s: State, e: Event, ref: Ref)
    requires Enabled(s, e) && (e.Begin? || e.Finish? || e.Abort?)
    ensures Contribution(Next(s, e).intents[e.i], ref) == Contribution(s.intents[e.i], ref)
  {
    var intent := s.intents[e.i];
    if e.Finish? {
      NetConcat(intent.committed, intent.log, ref);
      assert intent.log[..|intent.log|] == intent.log;
    }
  }

  ghost predicate Accounted(s: State) {
    Consistent(s.store) && forall ref :: Count(s.store, ref) == Total(s.intents, ref)
  }

  lemma EventKeepsAccount(s: State, e: Event)
    requires Accounted(s) && Enabled(s, e)
    ensures Accounted(Next(s, e))
  {
    var s' := Next(s, e);
    if e.Do? || e.Undo? {
      EventEffect(s, e, Ref("", TransitKey));
    }
    forall ref ensures Count(s'.store, ref) == Total(s'.intents, ref) {
      if e.Join? {
        TotalAppend(s.intents, FRESH, ref);
      } else {
        TotalUpdate(s.intents, e.i, s'.intents[e.i], ref);
        if e.Do? || e.Undo? {
          EventEffect(s, e, ref);
        } else {
          BookkeepingEffect(s, e, ref);
        }
      }
    }
  }

  /** In every interleaving of every set of intents, whatever the switches answer, each count is the sum
      of what the intents applied plus the net of their failed undos. */
  lemma {:induction false} CountsAreContributions(s: State, events: seq<Event>)
    requires Accounted(s) && Legal(s, events)
    ensures Accounted(After(s, events))
    decreases |events|
  {
    if events == [] {
    } else {
      EventKeepsAccount(s, events[0]);
      CountsAreContributions(Next(s, events[0]), events[1..]);
    }
  }

  /** Every state that any run can reach, whatever the updates and whatever the switches answer. */
  ghost predicate ReachableState(s: State) {
    exists s0, events :: Initial(s0) && Legal(s0, events) && s == After(s0, events)
  }

  lemma {:induction false} LegalAppend(s: State, events: seq<Event>, e: Event)
    requires Legal(s, events) && Enabled(After(s, events), e)
    ensures Legal(s, events + [e]) && After(s, events + [e]) == Next(After(s, events), e)
    decreases |events|
  {
    var more := events + [e];
    if events == [] {
      assert more[1..] == [];
    } else {
      LegalAppend(Next(s, events[0]), events[1..], e);
      assert more[1..] == events[1..] + [e];
    }
  }

  lemma NextReachable(s: State, e: Event)
    requires ReachableState(s) && Enabled(s, e)
    ensures ReachableState(Next(s, e))
  {
    var s0, events :| Initial(s0) && Legal(s0, events) && s == After(s0, events);
    LegalAppend(s0, events, e);
  }

  lemma ReachableAccounted(s: State)
    requires ReachableState(s)
    ensures Accounted(s)
  {
    var s0, events :| Initial(s0) && Legal(s0, events) && s == After(s0, events);
    assert Accounted(s0);
    CountsAreContributions(s0, events);
  }

  /** What the failed undos of all intents have left on the count of `ref`. */
  function Lost(intents: seq<Intent>, ref: Ref): int {
    if intents == [] then 0 else Net(intents[0].failed, ref) + Lost(intents[1..], ref)
  }

  // ---- Runs whose updates cover a key ----

  ghost predicate CreatesUpTo(log: seq<Action>, m: nat) {
    && m <= |log|
    && (forall j :: 0 <= j < m ==> log[j].isCreate)
    && (forall j :: m <= j < |log| ==> !log[j].isCreate)
  }

  /** A log that first creates and then deletes. */
  ghost predicate CreatesFirst(log: seq<Action>) {
    exists m :: CreatesUpTo(log, m)
  }

  predicate Meets(count: int, wanted: nat, exactly: bool) {
    if exactly then count == wanted else count >= wanted
  }

  /** After the log the intent counts `ref` as often as its goal asks, exactly or at least. */
  predicate Covers(intent: Intent, log: seq<Action>, goal: multiset<Ref>, ref: Ref, exactly: bool) {
    Meets(Net(intent.committed, ref) + Net(log, ref), goal[ref], exactly)
  }

  /** Updates create first and cover this one key. Nothing is asked of other keys, nor of the switches. */
  ghost predicate Proper(s: State, e: Event, ref: Ref, exactly: bool)
    requires Enabled(s, e)
  {
    e.Begin? ==> CreatesFirst(e.log) && Covers(s.intents[e.i], e.log, e.goal, ref, exactly)
  }

  ghost predicate AllProper(s: State, events: seq<Event>, ref: Ref, exactly: bool)
    requires Legal(s, events)
    decreases |events|
  {
    events == [] || (Proper(s, events[0], ref, exactly) && AllProper(Next(s, events[0]), events[1..], ref, exactly))
  }

  ghost predicate Steady(intent: Intent, ref: Ref, exactly: bool) {
    && Meets(Net(intent.committed, ref), intent.need[ref], exactly)
    && (intent.phase != Idle ==> CreatesFirst(intent.log) && Covers(intent, intent.log, intent.goal, ref, exactly))
    && (intent.phase.Committing? ==> intent.phase.done <= |intent.log|)
    && (intent.phase.RollingBack? ==> intent.phase.left <= |intent.log|)
  }

  ghost predicate Inv(s: State, ref: Ref, exactly: bool) {
    Accounted(s) && forall i :: 0 <= i < |s.intents| ==> Steady(s.intents[i], ref, exactly)
  }

  lemma {:induction false} CreatesAdd(log: seq<Action>, ref: Ref)
    requires forall j :: 0 <= j < |log| ==> log[j].isCreate
    ensures Net(log, ref) >= 0
  {
    if log == [] {
    } else {
      CreatesAdd(log[1..], ref);
    }
  }

  lemma {:induction false} DeletesSubtract(log: seq<Action>, ref: Ref)
    requires forall j :: 0 <= j < |log| ==> !log[j].isCreate
    ensures Net(log, ref) <= 0
  {
    if log == [] {
    } else {
      DeletesSubtract(log[1..], ref);
    }
  }

  /** Make before break: no part of a log that creates first takes any count below both what it was before
      and what it will be after the log. */
  lemma PrefixKeepsMinimum(log: seq<Action>, k: nat, ref: Ref)
    requires CreatesFirst(log) && k <= |log|
    ensures Net(log[..k], ref) >= if Net(log, ref) <= 0 then Net(log, ref) else 0
  {
    var m :| CreatesUpTo(log, m);
    if k <= m {
      CreatesAdd(log[..k], ref);
    } else {
      NetConcat(log[..k], log[k..], ref);
      assert log == log[..k] + log[k..];
      DeletesSubtract(log[k..], ref);
    }
  }

  /** What the intent is sure to count for `ref`, failed undos apart. */
  function Floor(intent: Intent, ref: Ref): nat {
    if intent.phase == Idle || intent.need[ref] <= intent.goal[ref] then intent.need[ref] else intent.goal[ref]
  }

  /** The contribution of an intent without its failed undos. */
  function Standing(intent: Intent, ref: Ref): int {
    Net(intent.committed, ref) + Net(Applied(intent), ref)
  }

  lemma StandingAtLeast(intent: Intent, ref: Ref)
    requires Steady(intent, ref, false)
    ensures Standing(intent, ref) >= Floor(intent, ref)
  {
    if intent.phase != Idle {
      var k := if intent.phase.Committing? then intent.phase.done else intent.phase.left;
      PrefixKeepsMinimum(intent.log, k, ref);
    }
  }

  lemma {:induction false} TotalAtLeast(intents: seq<Intent>, i: nat, ref: Ref)
    requires i < |intents| && forall j :: 0 <= j < |intents| ==> Steady(intents[j], ref, false)
    ensures Total(intents, ref) >= Standing(intents[i], ref) + Lost(intents, ref)
  {
    if i == 0 {
      TotalAtLeastLost(intents[1..], ref);
    } else {
      StandingAtLeast(intents[0], ref);
      TotalAtLeast(intents[1..], i - 1, ref);
    }
  }

  lemma {:induction false} TotalAtLeastLost(intents: seq<Intent>, ref: Ref)
    requires forall j :: 0 <= j < |intents| ==> Steady(intents[j], ref, false)
    ensures Total(intents, ref) >= Lost(intents, ref)
  {
    if intents == [] {
    } else {
      StandingAtLeast(intents[0], ref);
      TotalAtLeastLost(intents[1..], ref);
    }
  }

  lemma EventKeepsInv(s: State, e: Event, ref: Ref, exactly: bool)
    requires Inv(s, ref, exactly) && Enabled(s, e) && Proper(s, e, ref, exactly)
    ensures Inv(Next(s, e), ref, exactly)
  {
    EventKeepsAccount(s, e);
    var s' := Next(s, e);
    forall i | 0 <= i < |s'.intents| ensures Steady(s'.intents[i], ref, exactly) {
      assert i < |s.intents| ==> Steady(s.intents[i], ref, exactly);
      if e.Finish? && i == e.i {
        NetConcat(s.intents[i].committed, s.intents[i].log, ref);
      }
    }
  }

  lemma {:induction false} RunKeepsInv(s: State, events: seq<Event>, ref: Ref, exactly: bool)
    requires Inv(s, ref, exactly) && Legal(s, events) && AllProper(s, events, ref, exactly)
    ensures Inv(After(s, events), ref, exactly)
    decreases |events|
  {
    if events == [] {
    } else {
      EventKeepsInv(s, events[0], ref, exactly);
      RunKeepsInv(Next(s, events[0]), events[1..], ref, exactly);
    }
  }

  /** Every state that a run can reach in which all updates cover `ref`, whatever the switches answer. */
  ghost predicate Reached(s: State, ref: Ref, exactly: bool) {
    exists s0, events ::
      Initial(s0) && Legal(s0, events) && AllProper(s0, events, ref, exactly) && s == After(s0, events)
  }

  lemma ReachedInv(s: State, ref: Ref, exactly: bool)
    requires Reached(s, ref, exactly)
    ensures Inv(s, ref, exactly)
    ensures Inv(s, ref, false)
  {
    var s0, events :| Initial(s0) && Legal(s0, events) && AllProper(s0, events, ref, exactly) && s == After(s0, events);
    RunKeepsInv(s0, events, ref, exactly);
    assert forall i :: 0 <= i < |s.intents| && Steady(s.intents[i], ref, exactly) ==> Steady(s.intents[i], ref, false);
  }

  // ---- Theorems about every reachable state ----

  /** No intent ever removes an entry that another one needs, nor one that it keeps itself: what an idle
      intent needs, and what a busy one needs both before and after, is installed all the time, unless
      failed undos have taken more from its count than they left. */
  lemma NeededEntryIsInstalled(s: State, i: nat, ref: Ref)
    requires Reached(s, ref, false) && Lost(s.intents, ref) >= 0
    requires i < |s.intents| && ref in s.intents[i].need
    requires s.intents[i].phase != Idle ==> ref in s.intents[i].goal
    ensures ref in s.store.installed && Count(s.store, ref) >= 1
  {
    ReachedInv(s, ref, false);
    StandingAtLeast(s.intents[i], ref);
    TotalAtLeast(s.intents, i, ref);
  }

  /** What an intent has applied so far is installed. */
  lemma ContributedEntryIsInstalled(s: State, i: nat, ref: Ref)
    requires Reached(s, ref, false) && Lost(s.intents, ref) >= 0
    requires i < |s.intents| && Standing(s.intents[i], ref) > 0
    ensures ref in s.store.installed
  {
    ReachedInv(s, ref, false);
    TotalAtLeast(s.intents, i, ref);
  }

  /** The action an event asks for lies between two prefixes of the log. */
  lemma AskedStanding(intent: Intent, a: Action, k: nat)
    requires Steady(intent, a.ref, false) && intent.phase != Idle && k < |intent.log|
    requires if intent.phase.Committing? then intent.phase.done == k && a == intent.log[k]
             else intent.phase.left == k + 1 && a == intent.log[k].Reverse()
    requires !a.isCreate
    ensures Standing(intent, a.ref) >= 1
  {
    NetConcat(intent.log[..k], [intent.log[k]], a.ref);
    assert intent.log[..k + 1] == intent.log[..k] + [intent.log[k]];
    PrefixKeepsMinimum(intent.log, if intent.phase.Committing? then k + 1 else k, a.ref);
  }

  /** An intent that deletes, or undoes a create, finds the entry counted: the error for a non-existing
      entry cannot occur, and the action can fail only if the switch refuses it. */
  lemma DeleteFindsEntry(s: State, e: Event)
    requires Enabled(s, e) && (e.Do? || e.Undo?) && !Asked(s, e).isCreate
    requires Reached(s, Asked(s, e).ref, false) && Lost(s.intents, Asked(s, e).ref) >= 0
    ensures Asked(s, e).ref in s.store.cells
    ensures e.deviceOk ==> Apply(s.store, Asked(s, e), e.deviceOk).1
  {
    var intent, a := s.intents[e.i], Asked(s, e);
    ReachedInv(s, a.ref, false);
    AskedStanding(intent, a, if e.Do? then intent.phase.done else intent.phase.left - 1);
    TotalAtLeast(s.intents, e.i, a.ref);
    assert Count(s.store, a.ref) >= 1;
  }

  /** An idle intent contributes what it needs, exactly if its updates were exact, and what its own failed
      undos left. */
  lemma IdleContributesNeed(s: State, i: nat, ref: Ref, exactly: bool)
    requires Reached(s, ref, exactly) && i < |s.intents| && s.intents[i].phase == Idle
    ensures Meets(Contribution(s.intents[i], ref) - Net(s.intents[i].failed, ref), s.intents[i].need[ref], exactly)
  {
    ReachedInv(s, ref, exactly);
  }

  /** What all intents need of `ref`, and have applied of their current updates. */
  function Demand(intents: seq<Intent>, ref: Ref): int {
    if intents == [] then 0 else intents[0].need[ref] + Net(Applied(intents[0]), ref) + Demand(intents[1..], ref)
  }

  /** By how much the finished updates of an intent count `ref` more often than it needs it, or less often. */
  function SurplusOf(intent: Intent, ref: Ref): int {
    Net(intent.committed, ref) - intent.need[ref]
  }

  function Surplus(intents: seq<Intent>, ref: Ref): int {
    if intents == [] then 0 else SurplusOf(intents[0], ref) + Surplus(intents[1..], ref)
  }

  lemma {:induction false} TotalIsDemand(intents: seq<Intent>, ref: Ref)
    ensures Total(intents, ref) == Demand(intents, ref) + Surplus(intents, ref) + Lost(intents, ref)
  {
    if intents == [] {
    } else {
      TotalIsDemand(intents[1..], ref);
    }
  }

  /** When an entry is there, in every reachable state and for every kind of log: exactly while what the
      intents need and have applied, what finished updates counted too often or too little, and what failed
      undos left or took, is positive in sum. */
  lemma WhenInstalled(s: State, ref: Ref)
    requires ReachableState(s)
    ensures ref in s.store.installed <==> Demand(s.intents, ref) + Surplus(s.intents, ref) + Lost(s.intents, ref) >= 1
    ensures Count(s.store, ref) == Demand(s.intents, ref) + Surplus(s.intents, ref) + Lost(s.intents, ref)
  {
    ReachableAccounted(s);
    TotalIsDemand(s.intents, ref);
  }

  function Needs(intents: seq<Intent>, ref: Ref): nat {
    if intents == [] then 0 else intents[0].need[ref] + Needs(intents[1..], ref)
  }

  /** So when all intents are idle an entry survives exactly if surplus and failed undos together have not
      taken as much from its count as all intents need of it. */
  lemma WhenNeededEntrySurvives(s: State, ref: Ref)
    requires ReachableState(s) && forall i :: 0 <= i < |s.intents| ==> s.intents[i].phase == Idle
    ensures ref in s.store.installed <==> Needs(s.intents, ref) + Surplus(s.intents, ref) + Lost(s.intents, ref) >= 1
  {
    WhenInstalled(s, ref);
    IdleDemand(s.intents, ref);
  }

  lemma {:induction false} IdleDemand(intents: seq<Intent>, ref: Ref)
    requires forall i :: 0 <= i < |intents| ==> intents[i].phase == Idle
    ensures Demand(intents, ref) == Needs(intents, ref)
  {
    if intents == [] {
    } else {
      IdleDemand(intents[1..], ref);
    }
  }

  lemma {:induction false} SurplusUpdate(intents: seq<Intent>, i: nat, x: Intent, ref: Ref)
    requires i < |intents|
    ensures Surplus(intents[i := x], ref) == Surplus(intents, ref) - SurplusOf(intents[i], ref) + SurplusOf(x, ref)
  {
    if i == 0 {
      assert intents[i := x][1..] == intents[1..];
    } else {
      SurplusUpdate(intents[1..], i - 1, x, ref);
      assert intents[i := x][1..] == intents[1..][i - 1 := x];
    }
  }

  lemma {:induction false} SurplusAppend(intents: seq<Intent>, x: Intent, ref: Ref)
    ensures Surplus(intents + [x], ref) == Surplus(intents, ref) + SurplusOf(x, ref)
  {
    if intents == [] {
      assert intents + [x] == [x];
    } else {
      SurplusAppend(intents[1..], x, ref);
      assert (intents + [x])[1..] == intents[1..] + [x];
    }
  }

  /** The surplus changes only when an update finishes, by as much as the update misses its goal. */
  lemma SurplusChanges(s: State, e: Event, ref: Ref)
    requires Enabled(s, e)
    ensures Surplus(Next(s, e).intents, ref) == Surplus(s.intents, ref)
      + if e.Finish? then s.intents[e.i].need[ref] + Net(s.intents[e.i].log, ref) - s.intents[e.i].goal[ref] else 0
  {
    if e.Join? {
      SurplusAppend(s.intents, FRESH, ref);
    } else {
      SurplusUpdate(s.intents, e.i, Next(s, e).intents[e.i], ref);
      if e.Finish? {
        NetConcat(s.intents[e.i].committed, s.intents[e.i].log, ref);
      }
    }
  }

  // ---- A failed undo ----

  lemma {:induction false} AllProperAppend(s: State, events: seq<Event>, e: Event, ref: Ref, exactly: bool)
    requires Legal(s, events) && AllProper(s, events, ref, exactly)
    requires Enabled(After(s, events), e) && Proper(After(s, events), e, ref, exactly)
    ensures Legal(s, events + [e]) && AllProper(s, events + [e], ref, exactly)
    ensures After(s, events + [e]) == Next(After(s, events), e)
    decreases |events|
  {
    var more := events + [e];
    if events == [] {
      assert more[1..] == [];
    } else {
      AllProperAppend(Next(s, events[0]), events[1..], e, ref, exactly);
      assert more[1..] == events[1..] + [e];
    }
  }

  lemma ReachedStep(s: State, e: Event, ref: Ref, exactly: bool)
    requires Reached(s, ref, exactly) && Enabled(s, e) && Proper(s, e, ref, exactly)
    ensures Reached(Next(s, e), ref, exactly)
  {
    var s0, events :| Initial(s0) && Legal(s0, events) && AllProper(s0, events, ref, exactly) && s == After(s0, events);
    AllProperAppend(s0, events, e, ref, exactly);
    assert AllProper(s0, events + [e], ref, exactly);
  }

  lemma InitialReached(ref: Ref, exactly: bool)
    ensures Reached(State(Store(map[], map[], map[]), []), ref, exactly)
  {
    var s := State(Store(map[], map[], map[]), []);
    assert Legal(s, []) && AllProper(s, [], ref, exactly) && After(s, []) == s;
  }

  /** Every key was covered exactly on the way to `s`. */
  ghost predicate ReachedExactly(s: State) {
    forall r {:trigger Reached(s, r, true)} :: Reached(s, r, true)
  }

  lemma NextReached(s: State, e: Event)
    requires ReachedExactly(s) && Enabled(s, e)
    requires e.Begin? ==> CreatesFirst(e.log) && forall r :: Covers(s.intents[e.i], e.log, e.goal, r, true)
    ensures ReachedExactly(Next(s, e))
  {
    forall r ensures Reached(Next(s, e), r, true) {
      assert Reached(s, r, true);
      ReachedStep(s, e, r, true);
    }
  }

  lemma NetOfTwo(a: Action, b: Action, r: Ref)
    ensures Net([a, b], r) == (if a.ref == r then a.Delta() else 0) + (if b.ref == r then b.Delta() else 0)
  {
    assert [a, b][1..] == [b] && [b][1..] == [];
    assert Net([b], r) == (if b.ref == r then b.Delta() else 0) + Net([b][1..], r);
  }

  /** One intent that configured two entries. */
  lemma TwoEntriesConfigured(ref: Ref, other: Ref, entry: Entry) returns (s: State)
    requires ref != other
    ensures ReachedExactly(s)
    ensures s.store.cells == map[ref := Cell(1, entry), other := Cell(1, entry)]
    ensures s.store.installed == map[ref := entry, other := entry]
    ensures var log := [Action(ref, entry, true), Action(other, entry, true)];
      s.intents == [Intent(log, [], log, Idle, multiset{ref, other}, multiset{ref, other})]
  {
    var log := [Action(ref, entry, true), Action(other, entry, true)];
    var s0 := State(Store(map[], map[], map[]), []);
    forall r ensures Reached(s0, r, true) {
      InitialReached(r, true);
    }
    NextReached(s0, Join);
    var s1 := Next(s0, Join);
    assert s1.intents == [FRESH];
    assert CreatesUpTo(log, 2);
    forall r ensures Covers(FRESH, log, multiset{ref, other}, r, true) {
      NetOfTwo(log[0], log[1], r);
    }
    NextReached(s1, Begin(0, log, multiset{ref, other}));
    var s2 := Next(s1, Begin(0, log, multiset{ref, other}));
    NextReached(s2, Do(0, true));
    var s3 := Next(s2, Do(0, true));
    NextReached(s3, Do(0, true));
    var s4 := Next(s3, Do(0, true));
    NextReached(s4, Finish(0));
    s := Next(s4, Finish(0));
    assert [] + log == log;
  }

  /** The intent starts to delete its two entries, the switch refuses the second delete and then the undo
      of the first. The intent is idle again, and still needs an entry that is gone. */
  lemma FailedUndoLosesEntry(ref: Ref, other: Ref, entry: Entry) returns (s: State)
    requires ref != other
    ensures ReachedExactly(s) && |s.intents| == 1 && s.intents[0].phase == Idle
    ensures ref in s.intents[0].need && ref !in s.store.installed
    ensures s.intents[0].failed == [Action(ref, entry, false)]
  {
    var log := [Action(ref, entry, false), Action(other, entry, false)];
    var s0 := TwoEntriesConfigured(ref, other, entry);
    var before := s0.intents[0];
    assert CreatesUpTo(log, 0);
    forall r ensures Covers(before, log, multiset{}, r, true) {
      NetOfTwo(log[0], log[1], r);
      NetOfTwo(before.committed[0], before.committed[1], r);
      assert before.committed == [before.committed[0], before.committed[1]];
    }
    NextReached(s0, Begin(0, log, multiset{}));
    var s1 := Next(s0, Begin(0, log, multiset{}));
    NextReached(s1, Do(0, true));
    var s2 := Next(s1, Do(0, true));
    NextReached(s2, Do(0, false));
    var s3 := Next(s2, Do(0, false));
    NextReached(s3, Undo(0, false));
    var s4 := Next(s3, Undo(0, false));
    NextReached(s4, Abort(0));
    s := Next(s4, Abort(0));
  }
}
