/** The life cycle of intents while any number of ConfigureTelemetry and DisableTelemetry calls run. */
module Lifecycle {
  // A step is what a call does under the mutex of the lock map, one access to the intent state, the visit
  // of one pool slot under its mutex, or a whole commit, of which only success or failure matters here.
  // Whether a reservation succeeds is left open. A call whose scan runs past the last slot is stuck;
  // PoolInterleaving.dfy shows that this never happens.

  import opened CollectionIds

  /** `known` says whether the intent had state when the call loaded it. */
  datatype Pc =
    // ConfigureTelemetry
    | Lock | Load
    | Search(known: bool, i: nat) | Reserve(known: bool) | Scan(known: bool, i: nat) | Refused(known: bool)
    | Commit(known: bool) | Store
    // DisableTelemetry
    | TryLock | LoadForDisable | Get(id: string, i: nat) | CommitDelete(id: string) | DeleteState(id: string)
    // either
    | FreeSlot(id: string, i: nat) | DeleteLock | Unlock
    | Finished | MissingState | NotAllocated

  datatype Call = Call(intentId: string, collectionId: string, pc: Pc)

  /** A lock that is in the map is held or not. */
  datatype State = State(locks: map<string, bool>, intentState: map<string, string>, slots: seq<Slot>, calls: seq<Call>)

  /** The call is between taking the lock of its intent and giving it up. */
  predicate Holding(pc: Pc) {
    !(pc.Lock? || pc.TryLock? || pc.Finished?)
  }

  predicate Enabled(s: State, t: nat) {
    && t < |s.calls|
    && !(s.calls[t].pc.Finished? || s.calls[t].pc.MissingState? || s.calls[t].pc.NotAllocated?)
    && (s.calls[t].pc.Scan? ==> s.calls[t].pc.i < |s.slots|)
  }

  function Goto(s: State, t: nat, pc: Pc): State
    requires t < |s.calls|
  {
    s.(calls := s.calls[t := s.calls[t].(pc := pc)])
  }

  function Write(s: State, i: nat, slot: Slot): State
    requires i < |s.slots|
  {
    s.(slots := s.slots[i := slot])
  }

  /** Taking the lock of an intent succeeds unless it exists and is held. */
  predicate Available(s: State, intentId: string) {
    intentId in s.locks ==> !s.locks[intentId]
  }

  /** One step of call `t`; `choice` is the outcome of a reservation or of a commit. */
  function StepCall(s: State, t: nat, choice: bool): (s': State)
    requires Enabled(s, t)
    ensures |s'.calls| == |s.calls| && |s'.slots| == |s.slots|
  {
    var c := s.calls[t];
    var n := |s.slots|;
    match c.pc
    case Lock =>
      if Available(s, c.intentId) then Goto(s, t, Load).(locks := s.locks[c.intentId := true])
      else Goto(s, t, Finished)
    case Load =>
      if c.intentId !in s.intentState then Goto(s, t, Search(false, 0))
      else if s.intentState[c.intentId] != c.collectionId then Goto(s, t, Unlock)
      else Goto(s, t, Search(true, 0))
    case Search(known, i) =>
      if i >= n then Goto(s, t, Reserve(known))
      else if s.slots[i].collectionId == c.collectionId then
        Write(Goto(s, t, Commit(known)), i, s.slots[i].(intents := s.slots[i].intents + {c.intentId}))
      else Goto(s, t, Search(known, i + 1))
    case Reserve(known) => if choice then Goto(s, t, Scan(known, 0)) else Goto(s, t, Refused(known))
    case Scan(known, i) =>
      if s.slots[i].intents == {} then Write(Goto(s, t, Commit(known)), i, Slot(c.collectionId, {c.intentId}))
      else Goto(s, t, Scan(known, i + 1))
    case Refused(known) => Goto(s, t, if known then Unlock else DeleteLock)
    case Commit(known) =>
      if choice then Goto(s, t, Store) else Goto(s, t, if known then Unlock else FreeSlot(c.collectionId, 0))
    case Store => Goto(s, t, Unlock).(intentState := s.intentState[c.intentId := c.collectionId])
    case TryLock =>
      if c.intentId in s.locks && Available(s, c.intentId) then
        Goto(s, t, LoadForDisable).(locks := s.locks[c.intentId := true])
      else Goto(s, t, Finished)
    case LoadForDisable =>
      if c.intentId in s.intentState then Goto(s, t, Get(s.intentState[c.intentId], 0)) else Goto(s, t, MissingState)
    case Get(id, i) =>
      if i >= n then Goto(s, t, NotAllocated)
      else if Owns(s.slots[i], c.intentId, id) then Goto(s, t, CommitDelete(id))
      else Goto(s, t, Get(id, i + 1))
    case CommitDelete(id) => if choice then Goto(s, t, DeleteState(id)) else Goto(s, t, Unlock)
    case DeleteState(id) => Goto(s, t, FreeSlot(id, 0)).(intentState := s.intentState - {c.intentId})
    case FreeSlot(id, i) =>
      if i >= n then Goto(s, t, DeleteLock)
      else if Owns(s.slots[i], c.intentId, id) then
        var left := s.slots[i].intents - {c.intentId};
        Write(Goto(s, t, DeleteLock), i, Slot(if left == {} then "" else s.slots[i].collectionId, left))
      else Goto(s, t, FreeSlot(id, i + 1))
    case DeleteLock => Goto(s, t, Finished).(locks := s.locks - {c.intentId})
    case Unlock => Goto(s, t, Finished).(locks := s.locks[c.intentId := false])
    case _ => s
  }

  ghost predicate Step(s: State, s': State) {
    || (exists t, choice :: Enabled(s, t) && s' == StepCall(s, t, choice))
    || (exists c: Call :: (c.pc == Lock || c.pc == TryLock) && s' == s.(calls := s.calls + [c]))
  }

  ghost predicate Initial(s: State) {
    && s.locks == map[] && s.intentState == map[] && s.calls == []
    && forall i :: 0 <= i < |s.slots| ==> s.slots[i] == Slot("", {})
  }

  ghost predicate IsRun(run: seq<State>) {
    run != [] && Initial(run[0]) && forall k :: 0 <= k < |run| - 1 ==> Step(run[k], run[k + 1])
  }

  // ---- Invariant ----

  /** The intent owns a slot with this id at index `p` or later. */
  predicate OwnsFrom(slots: seq<Slot>, intentId: string, id: string, p: nat) {
    exists j :: p <= j < |slots| && Owns(slots[j], intentId, id)
  }

  predicate Held(s: State, intentId: string) {
    intentId in s.locks && s.locks[intentId]
  }

  predicate Stored(s: State, intentId: string, id: string) {
    intentId in s.intentState && s.intentState[intentId] == id
  }

  /** What holds at each point of a call. */
  predicate CallOk(s: State, c: Call) {
    && (Holding(c.pc) ==> Held(s, c.intentId))
    && match c.pc
       case Search(known, _) => Knows(s, c, known)
       case Reserve(known) => Knows(s, c, known)
       case Scan(known, _) => Knows(s, c, known)
       case Refused(known) => Knows(s, c, known)
       case Commit(known) => Knows(s, c, known) && OwnsFrom(s.slots, c.intentId, c.collectionId, 0)
       case Store => OwnsFrom(s.slots, c.intentId, c.collectionId, 0)
       case Unlock => c.intentId in s.intentState
       case LoadForDisable => c.intentId in s.intentState
       case Get(id, i) => Stored(s, c.intentId, id) && OwnsFrom(s.slots, c.intentId, id, i)
       case CommitDelete(id) => Stored(s, c.intentId, id)
       case DeleteState(id) => Stored(s, c.intentId, id)
       case FreeSlot(_, _) => c.intentId !in s.intentState
       case DeleteLock => c.intentId !in s.intentState
       case MissingState => false
       case NotAllocated => false
       case _ => true
  }

  predicate Knows(s: State, c: Call, known: bool) {
    if known then Stored(s, c.intentId, c.collectionId) else c.intentId !in s.intentState
  }

  /** Stored state comes with a lock and a pool slot; a lock that nobody holds comes with stored state. */
  predicate IntentOk(s: State, x: string) {
    && (x in s.intentState ==> x in s.locks && OwnsFrom(s.slots, x, s.intentState[x], 0))
    && (x in s.locks && !s.locks[x] ==> x in s.intentState)
  }

  predicate Exclusive(s: State, t: nat, u: nat)
    requires t < |s.calls| && u < |s.calls|
  {
    t != u && Holding(s.calls[t].pc) && Holding(s.calls[u].pc) ==> s.calls[t].intentId != s.calls[u].intentId
  }

  ghost predicate Inv(s: State) {
    && (forall t :: 0 <= t < |s.calls| ==> CallOk(s, s.calls[t]))
    && (forall t: nat, u: nat {:trigger Exclusive(s, t, u)} :: t < |s.calls| && u < |s.calls| ==> Exclusive(s, t, u))
    && (forall x {:trigger IntentOk(s, x)} :: IntentOk(s, x))
  }

  // ---- One step ----

  /** A step leaves the slots of other intents alone. */
  lemma OthersKeepSlots(s: State, t: nat, choice: bool, x: string, id: string, p: nat)
    requires Enabled(s, t) && OwnsFrom(s.slots, x, id, p)
    requires x != s.calls[t].intentId || !s.calls[t].pc.FreeSlot?
    ensures OwnsFrom(StepCall(s, t, choice).slots, x, id, p)
  {
    var j :| p <= j < |s.slots| && Owns(s.slots[j], x, id);
    assert Owns(StepCall(s, t, choice).slots[j], x, id);
  }

  /** A step changes lock and state of its own intent only. */
  lemma OthersUntouched(s: State, t: nat, choice: bool, x: string)
    requires Enabled(s, t) && x != s.calls[t].intentId
    ensures var s' := StepCall(s, t, choice);
      && (x in s'.locks <==> x in s.locks) && (x in s.locks ==> s'.locks[x] == s.locks[x])
      && (x in s'.intentState <==> x in s.intentState) && (x in s.intentState ==> s'.intentState[x] == s.intentState[x])
  {
  }

  lemma StepKeepsIntents(s: State, t: nat, choice: bool, x: string)
    requires Inv(s) && Enabled(s, t)
    ensures IntentOk(StepCall(s, t, choice), x)
  {
    var c := s.calls[t];
    assert IntentOk(s, x) && CallOk(s, c);
    var s' := StepCall(s, t, choice);
    if x != c.intentId {
      OthersUntouched(s, t, choice, x);
      if x in s.intentState {
        OthersKeepSlots(s, t, choice, x, s.intentState[x], 0);
      }
    } else if x in s.intentState && !c.pc.FreeSlot? {
      OthersKeepSlots(s, t, choice, x, s.intentState[x], 0);
    }
  }

  /** Where a call goes next, apart from the slots it owns. */
  lemma ConfigureKeepsKnowledge(s: State, t: nat, choice: bool)
    requires Enabled(s, t) && CallOk(s, s.calls[t]) && IntentOk(s, s.calls[t].intentId)
    requires var pc := s.calls[t].pc;
      pc.Lock? || pc.Load? || pc.Reserve? || pc.Refused? || pc.Commit? || pc.Store?
    ensures CallOk(StepCall(s, t, choice), StepCall(s, t, choice).calls[t])
  {
  }

  lemma DisableKeepsKnowledge(s: State, t: nat, choice: bool)
    requires Enabled(s, t) && CallOk(s, s.calls[t]) && IntentOk(s, s.calls[t].intentId)
    requires var pc := s.calls[t].pc;
      || pc.TryLock? || pc.LoadForDisable? || pc.CommitDelete? || pc.DeleteState?
      || pc.FreeSlot? || pc.DeleteLock? || pc.Unlock?
    ensures CallOk(StepCall(s, t, choice), StepCall(s, t, choice).calls[t])
  {
  }

  lemma VisitKeepsKnowledge(s: State, t: nat, choice: bool)
    requires Enabled(s, t) && CallOk(s, s.calls[t])
    requires s.calls[t].pc.Search? || s.calls[t].pc.Scan?
    ensures CallOk(StepCall(s, t, choice), StepCall(s, t, choice).calls[t])
  {
    var c, s' := s.calls[t], StepCall(s, t, choice);
    if s'.calls[t].pc.Commit? {
      assert Owns(s'.slots[c.pc.i], c.intentId, c.collectionId);
    }
  }

  lemma GetMovesOn(s: State, t: nat, choice: bool)
    requires Enabled(s, t) && CallOk(s, s.calls[t]) && s.calls[t].pc.Get?
    ensures CallOk(StepCall(s, t, choice), StepCall(s, t, choice).calls[t])
  {
    var c := s.calls[t];
    var j :| c.pc.i <= j < |s.slots| && Owns(s.slots[j], c.intentId, c.pc.id);
    if !Owns(s.slots[c.pc.i], c.intentId, c.pc.id) {
      assert c.pc.i + 1 <= j;
      assert OwnsFrom(s.slots, c.intentId, c.pc.id, c.pc.i + 1);
    }
  }

  lemma StepKeepsOwnCall(s: State, t: nat, choice: bool)
    requires Inv(s) && Enabled(s, t)
    ensures CallOk(StepCall(s, t, choice), StepCall(s, t, choice).calls[t])
  {
    var c := s.calls[t];
    assert IntentOk(s, c.intentId) && CallOk(s, c);
    if c.pc.Search? || c.pc.Scan? {
      VisitKeepsKnowledge(s, t, choice);
    } else if c.pc.Get? {
      GetMovesOn(s, t, choice);
    } else if c.pc.Lock? || c.pc.Load? || c.pc.Reserve? || c.pc.Refused? || c.pc.Commit? || c.pc.Store? {
      ConfigureKeepsKnowledge(s, t, choice);
    } else {
      DisableKeepsKnowledge(s, t, choice);
    }
  }

  lemma StepKeepsOtherCall(s: State, t: nat, choice: bool, u: nat)
    requires Inv(s) && Enabled(s, t) && u < |s.calls| && u != t
    ensures CallOk(StepCall(s, t, choice), s.calls[u])
    ensures Exclusive(StepCall(s, t, choice), t, u)
  {
    var c, d := s.calls[t], s.calls[u];
    assert CallOk(s, c) && CallOk(s, d) && Exclusive(s, t, u);
    if Holding(d.pc) && c.intentId != d.intentId {
      OthersUntouched(s, t, choice, d.intentId);
      if d.pc.Commit? || d.pc.Store? {
        OthersKeepSlots(s, t, choice, d.intentId, d.collectionId, 0);
      }
      if d.pc.Get? {
        OthersKeepSlots(s, t, choice, d.intentId, d.pc.id, d.pc.i);
      }
    }
  }

  lemma StepKeepsCalls(s: State, t: nat, choice: bool)
    requires Inv(s) && Enabled(s, t)
    ensures var s' := StepCall(s, t, choice);
      && (forall u: nat :: u < |s'.calls| ==> CallOk(s', s'.calls[u]))
      && (forall u: nat :: u < |s'.calls| ==> Exclusive(s', t, u) && Exclusive(s', u, t))
  {
    var s' := StepCall(s, t, choice);
    StepKeepsOwnCall(s, t, choice);
    forall u: nat | u < |s'.calls| ensures CallOk(s', s'.calls[u]) && Exclusive(s', t, u) && Exclusive(s', u, t) {
      if u != t {
        StepKeepsOtherCall(s, t, choice, u);
        assert s'.calls[u] == s.calls[u];
      }
    }
  }

  lemma StepKeepsExclusion(s: State, t: nat, choice: bool, u: nat, v: nat)
    requires Inv(s) && Enabled(s, t) && u < |s.calls| && v < |s.calls| && u != t && v != t
    ensures var s' := StepCall(s, t, choice); u < |s'.calls| && v < |s'.calls| && Exclusive(s', u, v)
  {
    assert Exclusive(s, u, v);
  }

  lemma StepKeepsInv(s: State, t: nat, choice: bool)
    requires Inv(s) && Enabled(s, t)
    ensures Inv(StepCall(s, t, choice))
  {
    var s' := StepCall(s, t, choice);
    StepKeepsCalls(s, t, choice);
    forall u: nat, v: nat | u < |s'.calls| && v < |s'.calls| ensures Exclusive(s', u, v) {
      if u != t && v != t {
        StepKeepsExclusion(s, t, choice, u, v);
      }
    }
    forall x ensures IntentOk(s', x) {
      StepKeepsIntents(s, t, choice, x);
    }
  }

  lemma ArrivalKeepsInv(s: State, c: Call)
    requires Inv(s) && (c.pc == Lock || c.pc == TryLock)
    ensures Inv(s.(calls := s.calls + [c]))
  {
    var s' := s.(calls := s.calls + [c]);
    forall u: nat, v: nat | u < |s'.calls| && v < |s'.calls| ensures Exclusive(s', u, v) {
      if u < |s.calls| && v < |s.calls| {
        assert Exclusive(s, u, v);
      }
    }
    forall x ensures IntentOk(s', x) {
      assert IntentOk(s, x);
    }
    forall u: nat | u < |s'.calls| ensures CallOk(s', s'.calls[u]) {
      if u < |s.calls| {
        assert CallOk(s, s.calls[u]);
      }
    }
  }

  lemma {:induction false} RunKeepsInv(run: seq<State>, k: nat)
    requires IsRun(run) && k < |run|
    ensures Inv(run[k])
  {
    if k == 0 {
    } else {
      RunKeepsInv(run, k - 1);
      var s, s' := run[k - 1], run[k];
      assert Step(run[k - 1], run[k - 1 + 1]);
      if t, choice :| Enabled(s, t) && s' == StepCall(s, t, choice) {
        StepKeepsInv(s, t, choice);
      } else {
        var c: Call :| (c.pc == Lock || c.pc == TryLock) && s' == s.(calls := s.calls + [c]);
        ArrivalKeepsInv(s, c);
      }
    }
  }

  // ---- Theorems over all runs ----

  /** At most one call works on an intent at a time, and the lock it will give up is in the map and held. */
  lemma OneCallPerIntent(run: seq<State>, k: nat, t: nat, u: nat)
    requires IsRun(run) && k < |run| && t < |run[k].calls| && u < |run[k].calls|
    requires Holding(run[k].calls[t].pc) && Holding(run[k].calls[u].pc)
    requires run[k].calls[t].intentId == run[k].calls[u].intentId
    ensures t == u && Held(run[k], run[k].calls[t].intentId)
  {
    RunKeepsInv(run, k);
    assert Exclusive(run[k], t, u);
    assert CallOk(run[k], run[k].calls[t]);
  }

  /** A lock that exists and is not held means stored state and a pool slot with the stored id; without
      a lock there is no state. */
  lemma UnheldLockHasState(run: seq<State>, k: nat, x: string)
    requires IsRun(run) && k < |run|
    ensures x in run[k].locks && !run[k].locks[x] ==>
      x in run[k].intentState && OwnsFrom(run[k].slots, x, run[k].intentState[x], 0)
    ensures x !in run[k].locks ==> x !in run[k].intentState
  {
    RunKeepsInv(run, k);
    assert IntentOk(run[k], x);
  }

  /** Disabling never finds the state missing or the collection id not allocated. */
  lemma DisableFindsItsIntent(run: seq<State>, k: nat, t: nat)
    requires IsRun(run) && k < |run| && t < |run[k].calls|
    ensures run[k].calls[t].pc != MissingState && run[k].calls[t].pc != NotAllocated
  {
    RunKeepsInv(run, k);
    assert CallOk(run[k], run[k].calls[t]);
  }

  // ---- Commits decide ----

  predicate Committing(pc: Pc) { pc.Commit? || pc.CommitDelete? }

  /** At step `j` the commit of call `t` succeeds, and does not fail. */
  ghost predicate Succeeds(run: seq<State>, j: nat, t: nat) {
    && j + 1 < |run| && Enabled(run[j], t) && Committing(run[j].calls[t].pc)
    && run[j + 1] == StepCall(run[j], t, true) && run[j + 1] != StepCall(run[j], t, false)
  }

  /** At step `j` it fails. */
  ghost predicate Fails(run: seq<State>, j: nat, t: nat) {
    && j + 1 < |run| && Enabled(run[j], t) && Committing(run[j].calls[t].pc)
    && run[j + 1] == StepCall(run[j], t, false) && run[j + 1] != StepCall(run[j], t, true)
  }

  /** The call whose step it is, if it is not an arrival. */
  lemma StepOf(run: seq<State>, k: nat) returns (arrival: bool, u: nat, choice: bool)
    requires IsRun(run) && k + 1 < |run|
    ensures !arrival ==> Enabled(run[k], u) && run[k + 1] == StepCall(run[k], u, choice)
    ensures arrival ==> exists c: Call ::
      (c.pc == Lock || c.pc == TryLock) && run[k + 1] == run[k].(calls := run[k].calls + [c])
  {
    assert Step(run[k], run[k + 1]);
    if t, b :| Enabled(run[k], t) && run[k + 1] == StepCall(run[k], t, b) {
      return false, t, b;
    }
    return true, 0, false;
  }

  /** A step moves one call, which goes on for the same intent. */
  lemma OthersStand(s: State, u: nat, choice: bool, t: nat)
    requires Enabled(s, u) && t < |s.calls|
    ensures t != u ==> StepCall(s, u, choice).calls[t] == s.calls[t]
    ensures StepCall(s, u, choice).calls[t].intentId == s.calls[t].intentId
    ensures StepCall(s, u, choice).calls[t].collectionId == s.calls[t].collectionId
  {
  }

  lemma OnlyCommitsLead(s: State, t: nat, choice: bool)
    requires Enabled(s, t)
    ensures StepCall(s, t, choice).calls[t].pc.Store? ==> choice && s.calls[t].pc.Commit?
    ensures StepCall(s, t, choice).calls[t].pc.DeleteState? ==> choice && s.calls[t].pc.CommitDelete?
  {
  }

  lemma AnswersDiffer(s: State, t: nat)
    requires Enabled(s, t) && Committing(s.calls[t].pc)
    ensures StepCall(s, t, false) != StepCall(s, t, true)
  {
    assert StepCall(s, t, true).calls[t].pc != StepCall(s, t, false).calls[t].pc;
  }

  /** A call that is about to store or delete state was there a step before, or has just committed. */
  lemma CommitsFirst(run: seq<State>, k: nat, t: nat) returns (here: bool)
    requires IsRun(run) && k + 1 < |run| && t < |run[k + 1].calls|
    requires run[k + 1].calls[t].pc.Store? || run[k + 1].calls[t].pc.DeleteState?
    ensures t < |run[k].calls|
    ensures run[k].calls[t].intentId == run[k + 1].calls[t].intentId
    ensures run[k].calls[t].collectionId == run[k + 1].calls[t].collectionId
    ensures !here ==> run[k].calls[t].pc == run[k + 1].calls[t].pc
    ensures here ==> Succeeds(run, k, t) && (run[k].calls[t].pc.Commit? <==> run[k + 1].calls[t].pc.Store?)
  {
    var arrival, u, choice := StepOf(run, k);
    here := !arrival && u == t;
    if !arrival {
      OthersStand(run[k], u, choice, t);
      if u == t {
        OnlyCommitsLead(run[k], t, choice);
        AnswersDiffer(run[k], t);
      }
    }
  }

  /** If call `t` is about to change the state after step `k`, it was before, or it commits in this step. */
  ghost predicate CommitsFirstAt(run: seq<State>, k: nat, t: nat) {
    && k + 1 < |run|
    && (t < |run[k + 1].calls| && Changing(run[k + 1].calls[t].pc) ==>
          && t < |run[k].calls| && SameCall(run[k].calls[t], run[k + 1].calls[t])
          && (run[k].calls[t].pc == run[k + 1].calls[t].pc
              || (Succeeds(run, k, t) && (run[k].calls[t].pc.Commit? <==> run[k + 1].calls[t].pc.Store?))))
  }

  predicate Changing(pc: Pc) { pc.Store? || pc.DeleteState? }

  predicate SameCall(c: Call, d: Call) { c.intentId == d.intentId && c.collectionId == d.collectionId }

  lemma {:induction false} CommittedBefore(run: seq<State>, k: nat, t: nat) returns (j: nat)
    requires k < |run| && run[0].calls == []
    requires t < |run[k].calls| && Changing(run[k].calls[t].pc)
    requires forall l {:trigger CommitsFirstAt(run, l, t)} :: 0 <= l < k ==> CommitsFirstAt(run, l, t)
    ensures j < k && Succeeds(run, j, t) && SameCall(run[j].calls[t], run[k].calls[t])
    ensures run[j].calls[t].pc.Commit? <==> run[k].calls[t].pc.Store?
    decreases k
  {
    if k == 0 {
      assert false;
    } else {
      assert CommitsFirstAt(run, k - 1, t);
      if run[k - 1].calls[t].pc == run[k].calls[t].pc {
        j := CommittedBefore(run, k - 1, t);
      } else {
        j := k - 1;
      }
    }
  }

  /** A call that stores or deletes state has committed before. */
  lemma HasCommitted(run: seq<State>, k: nat, t: nat) returns (j: nat)
    requires IsRun(run) && k < |run| && t < |run[k].calls| && Changing(run[k].calls[t].pc)
    ensures j < k && Succeeds(run, j, t) && SameCall(run[j].calls[t], run[k].calls[t])
    ensures run[j].calls[t].pc.Commit? <==> run[k].calls[t].pc.Store?
  {
    forall l: nat | l < k ensures CommitsFirstAt(run, l, t) {
      if t < |run[l + 1].calls| && Changing(run[l + 1].calls[t].pc) {
        var here := CommitsFirst(run, l, t);
      }
    }
    j := CommittedBefore(run, k, t);
  }

  /** State is stored or deleted only after a commit that succeeded: of a configuration with the stored
      collection id, or of a removal. */
  lemma StateChangesAfterCommit(run: seq<State>, k: nat, x: string) returns (j: nat, t: nat)
    requires IsRun(run) && k + 1 < |run|
    requires x in run[k].intentState && x in run[k + 1].intentState ==>
      run[k].intentState[x] != run[k + 1].intentState[x]
    requires x in run[k].intentState || x in run[k + 1].intentState
    ensures j < k && Succeeds(run, j, t) && run[j].calls[t].intentId == x
    ensures x in run[k + 1].intentState ==>
      run[j].calls[t].pc.Commit? && run[k + 1].intentState[x] == run[j].calls[t].collectionId
    ensures x !in run[k + 1].intentState ==> run[j].calls[t].pc.CommitDelete?
  {
    var arrival, u, choice := StepOf(run, k);
    assert !arrival;
    t := u;
    if run[k].calls[t].intentId != x {
      OthersUntouched(run[k], t, choice, x);
      assert false;
    }
    j := HasCommitted(run, k, t);
  }

  /** The steps after a refused commit. */
  predicate BackingOut(pc: Pc) { pc.Unlock? || pc.FreeSlot? || pc.DeleteLock? || pc.Finished? }

  ghost predicate SameState(s: State, s': State, x: string) {
    && (x in s.intentState <==> x in s'.intentState)
    && (x in s.intentState ==> s'.intentState[x] == s.intentState[x])
  }

  lemma BackingOutGoesOn(s: State, t: nat, choice: bool)
    requires Enabled(s, t) && BackingOut(s.calls[t].pc)
    ensures BackingOut(StepCall(s, t, choice).calls[t].pc)
    ensures StepCall(s, t, choice).intentState == s.intentState
  {
  }

  /** A call that does not hold the lock of its intent does not change the state. */
  lemma OnlyHoldersChange(s: State, u: nat, choice: bool)
    requires Enabled(s, u) && !Holding(s.calls[u].pc)
    ensures StepCall(s, u, choice).intentState == s.intentState
  {
  }

  /** While a call holds the lock of an intent, other calls do not change the state of that intent. */
  lemma OthersKeepState(run: seq<State>, k: nat, t: nat)
    requires IsRun(run) && k + 1 < |run| && t < |run[k].calls| && Holding(run[k].calls[t].pc)
    requires BackingOut(run[k].calls[t].pc)
    ensures t < |run[k + 1].calls| && BackingOut(run[k + 1].calls[t].pc)
    ensures run[k + 1].calls[t].intentId == run[k].calls[t].intentId
    ensures SameState(run[k], run[k + 1], run[k].calls[t].intentId)
  {
    var x := run[k].calls[t].intentId;
    var arrival, u, choice := StepOf(run, k);
    if !arrival {
      OthersStand(run[k], u, choice, t);
      if u == t {
        BackingOutGoesOn(run[k], t, choice);
      } else if run[k].calls[u].intentId != x {
        OthersUntouched(run[k], u, choice, x);
      } else if Holding(run[k].calls[u].pc) {
        OneCallPerIntent(run, k, t, u);
        assert false;
      } else {
        OnlyHoldersChange(run[k], u, choice);
      }
    }
  }

  ghost predicate KeepsAt(run: seq<State>, l: nat, t: nat) {
    && l + 1 < |run| && t < |run[l].calls|
    && (BackingOut(run[l].calls[t].pc) ==>
          && t < |run[l + 1].calls| && BackingOut(run[l + 1].calls[t].pc)
          && run[l + 1].calls[t].intentId == run[l].calls[t].intentId
          && SameState(run[l], run[l + 1], run[l].calls[t].intentId))
  }

  lemma {:induction false} BackingOutKeepsState(run: seq<State>, i: nat, t: nat, k: nat)
    requires i <= k < |run| && t < |run[i].calls| && BackingOut(run[i].calls[t].pc)
    requires forall l {:trigger KeepsAt(run, l, t)} :: i <= l < k ==> KeepsAt(run, l, t)
    ensures t < |run[k].calls| && BackingOut(run[k].calls[t].pc)
    ensures run[k].calls[t].intentId == run[i].calls[t].intentId
    ensures SameState(run[i], run[k], run[i].calls[t].intentId)
    decreases k
  {
    if k == i {
    } else {
      BackingOutKeepsState(run, i, t, k - 1);
      assert KeepsAt(run, k - 1, t);
    }
  }

  lemma FailureBacksOut(s: State, t: nat)
    requires Enabled(s, t) && Committing(s.calls[t].pc)
    ensures var s' := StepCall(s, t, false);
      && BackingOut(s'.calls[t].pc) && s'.calls[t].intentId == s.calls[t].intentId
      && SameState(s, s', s.calls[t].intentId)
  {
  }

  /** A commit that fails, of a configuration or of a removal, leaves the state of the intent as it was for as
      long as the call holds the lock. */
  lemma RefusedCommitKeepsState(run: seq<State>, j: nat, t: nat, k: nat)
    requires IsRun(run) && Fails(run, j, t) && j < k < |run|
    requires forall l :: j < l < k ==> t < |run[l].calls| && Holding(run[l].calls[t].pc)
    ensures t < |run[k].calls| && BackingOut(run[k].calls[t].pc)
    ensures run[k].calls[t].intentId == run[j].calls[t].intentId
    ensures SameState(run[j], run[k], run[j].calls[t].intentId)
  {
    FailureBacksOut(run[j], t);
    forall l: nat | j < l < k ensures KeepsAt(run, l, t) {
      if BackingOut(run[l].calls[t].pc) {
        OthersKeepState(run, l, t);
      }
    }
    BackingOutKeepsState(run, j + 1, t, k);
  }
}
