/** What an intent leaves behind when it is disabled while other calls run.

    It leaves nothing if no two calls for one id overlap in the pool; with such an overlap it may leave a
    slot that lists it for ever. */
module Departures {
  // The runs are those of Lifecycle.dfy: any calls for any intents, interleaved slot by slot, with any
  // outcome of commits and reservations.

  import opened CollectionIds
  import opened Lifecycle

  // ---- Calls for one id, one at a time ----

  /** How many slots a call has found not to hold its id and still relies on that. */
  function Passed(pc: Pc, n: nat): nat {
    match pc
    case Search(_, i) => i
    case Reserve(_) => n
    case Scan(_, _) => n
    case _ => 0
  }

  predicate Seeking(s: State, t: nat)
    requires t < |s.calls|
  {
    Passed(s.calls[t].pc, |s.slots|) > 0
  }

  predicate Looking(pc: Pc) { pc.Search? || pc.Reserve? || pc.Scan? }

  /** No two calls that look for a slot for the same id overlap, and none looks for the empty id. */
  ghost predicate NoOverlap(s: State) {
    && (forall t: nat, u: nat :: t < u < |s.calls| && Seeking(s, t) && Seeking(s, u) ==>
          s.calls[t].collectionId != s.calls[u].collectionId)
    && (forall t :: 0 <= t < |s.calls| && Looking(s.calls[t].pc) ==> s.calls[t].collectionId != "")
  }

  ghost predicate MissOk(s: State, c: Call) {
    forall i :: 0 <= i < |s.slots| && i < Passed(c.pc, |s.slots|) ==> s.slots[i].collectionId != c.collectionId
  }

  /** Ids are distinct, and a slot is in use exactly if it has an id. */
  ghost predicate SlotsOk(slots: seq<Slot>) {
    && (forall i :: 0 <= i < |slots| ==> (slots[i].intents == {} <==> slots[i].collectionId == ""))
    && (forall i, j :: 0 <= i < j < |slots| && slots[i].collectionId != "" ==>
          slots[i].collectionId != slots[j].collectionId)
  }

  // ---- Which slots list an intent ----

  predicate Lists(slots: seq<Slot>, j: nat, x: string) {
    j < |slots| && x in slots[j].intents
  }

  /** Only slots with the stored id, so none without stored state. */
  ghost predicate ListedAsStored(s: State, x: string) {
    forall j: nat :: Lists(s.slots, j, x) ==> Stored(s, x, s.slots[j].collectionId)
  }

  ghost predicate ListedAs(s: State, x: string, id: string, p: nat) {
    forall j: nat :: Lists(s.slots, j, x) ==> p <= j && s.slots[j].collectionId == id
  }

  /** Where the intent of a working call may be listed. */
  ghost predicate ListingOk(s: State, c: Call) {
    match c.pc
    case Commit(_) => ListedAs(s, c.intentId, c.collectionId, 0)
    case Store => ListedAs(s, c.intentId, c.collectionId, 0)
    case FreeSlot(id, i) => ListedAs(s, c.intentId, id, i)
    case _ => Holding(c.pc) ==> ListedAsStored(s, c.intentId)
  }

  ghost predicate Tidy(s: State) {
    && SlotsOk(s.slots)
    && (forall t :: 0 <= t < |s.calls| ==> MissOk(s, s.calls[t]) && ListingOk(s, s.calls[t]))
    && (forall x {:trigger ListedAsStored(s, x)} :: !Held(s, x) ==> ListedAsStored(s, x))
  }

  // ---- One step ----

  /** The only step that gives a slot a new id: a call that scans takes a free slot. */
  lemma OnlyScanWritesId(s: State, t: nat, choice: bool, i: nat)
    requires Enabled(s, t) && i < |s.slots|
    ensures var slots, pc := StepCall(s, t, choice).slots, s.calls[t].pc;
      || slots[i].collectionId == s.slots[i].collectionId || slots[i].collectionId == ""
      || (pc.Scan? && pc.i == i && s.slots[i].intents == {} && slots[i].collectionId == s.calls[t].collectionId)
  {
  }

  lemma StepKeepsSlots(s: State, t: nat, choice: bool)
    requires Enabled(s, t) && SlotsOk(s.slots) && MissOk(s, s.calls[t]) && NoOverlap(s)
    ensures SlotsOk(StepCall(s, t, choice).slots)
  {
    var s' := StepCall(s, t, choice);
    forall i, j | 0 <= i < j < |s'.slots| && s'.slots[i].collectionId != ""
      ensures s'.slots[i].collectionId != s'.slots[j].collectionId
    {
      OnlyScanWritesId(s, t, choice, i);
      OnlyScanWritesId(s, t, choice, j);
    }
  }

  lemma SearchMiss(s: State, t: nat, choice: bool)
    requires Enabled(s, t) && MissOk(s, s.calls[t]) && s.calls[t].pc.Search?
    ensures MissOk(StepCall(s, t, choice), StepCall(s, t, choice).calls[t])
  {
  }

  lemma ScanMiss(s: State, t: nat, choice: bool)
    requires Enabled(s, t) && MissOk(s, s.calls[t]) && (s.calls[t].pc.Reserve? || s.calls[t].pc.Scan?)
    ensures MissOk(StepCall(s, t, choice), StepCall(s, t, choice).calls[t])
  {
  }

  lemma NoMiss(s: State, t: nat, choice: bool)
    requires Enabled(s, t) && !Looking(s.calls[t].pc)
    ensures Passed(StepCall(s, t, choice).calls[t].pc, |s.slots|) == 0
  {
  }

  lemma OwnMiss(s: State, t: nat, choice: bool)
    requires Enabled(s, t) && MissOk(s, s.calls[t])
    ensures MissOk(StepCall(s, t, choice), StepCall(s, t, choice).calls[t])
  {
    if s.calls[t].pc.Search? {
      SearchMiss(s, t, choice);
    } else if Looking(s.calls[t].pc) {
      ScanMiss(s, t, choice);
    } else {
      NoMiss(s, t, choice);
    }
  }

  lemma OtherMiss(s: State, t: nat, choice: bool, u: nat)
    requires Enabled(s, t) && u < |s.calls| && u != t && MissOk(s, s.calls[u]) && NoOverlap(s)
    ensures MissOk(StepCall(s, t, choice), s.calls[u])
  {
    var s' := StepCall(s, t, choice);
    forall i | 0 <= i < |s'.slots| && i < Passed(s.calls[u].pc, |s'.slots|)
      ensures s'.slots[i].collectionId != s.calls[u].collectionId
    {
      OnlyScanWritesId(s, t, choice, i);
      if s.calls[t].pc.Scan? && s.calls[t].pc.i == i {
        assert Seeking(s, t) && Seeking(s, u);
      }
    }
  }

  /** Slots list the other intents as before, and keep their ids while they do. */
  lemma OthersListed(s: State, t: nat, choice: bool, x: string, j: nat)
    requires Enabled(s, t) && x != s.calls[t].intentId
    ensures Lists(StepCall(s, t, choice).slots, j, x) <==> Lists(s.slots, j, x)
    ensures Lists(s.slots, j, x) ==> StepCall(s, t, choice).slots[j].collectionId == s.slots[j].collectionId
  {
  }

  lemma OthersListedAsStored(s: State, t: nat, choice: bool, x: string)
    requires Enabled(s, t) && x != s.calls[t].intentId && ListedAsStored(s, x)
    ensures ListedAsStored(StepCall(s, t, choice), x)
  {
    OthersUntouched(s, t, choice, x);
    forall j: nat | Lists(StepCall(s, t, choice).slots, j, x)
      ensures Stored(StepCall(s, t, choice), x, StepCall(s, t, choice).slots[j].collectionId)
    {
      OthersListed(s, t, choice, x, j);
    }
  }

  lemma OthersListingOk(s: State, t: nat, choice: bool, c: Call)
    requires Enabled(s, t) && c.intentId != s.calls[t].intentId && ListingOk(s, c)
    ensures ListingOk(StepCall(s, t, choice), c)
  {
    if c.pc.Commit? || c.pc.Store? || c.pc.FreeSlot? {
      forall j: nat ensures
        && (Lists(StepCall(s, t, choice).slots, j, c.intentId) <==> Lists(s.slots, j, c.intentId))
        && (Lists(s.slots, j, c.intentId) ==>
              StepCall(s, t, choice).slots[j].collectionId == s.slots[j].collectionId)
      {
        OthersListed(s, t, choice, c.intentId, j);
      }
    } else if Holding(c.pc) {
      OthersListedAsStored(s, t, choice, c.intentId);
    }
  }

  /** The steps that leave the slots alone: what was known before is what has to be known after. */
  lemma ConfigureStepKeepsListing(s: State, t: nat, choice: bool)
    requires Enabled(s, t) && CallOk(s, s.calls[t]) && ListingOk(s, s.calls[t])
    requires Available(s, s.calls[t].intentId) ==> Holding(s.calls[t].pc) || ListedAsStored(s, s.calls[t].intentId)
    requires var pc := s.calls[t].pc;
      pc.Lock? || pc.Load? || pc.Reserve? || pc.Refused? || pc.Commit? || pc.Store?
    ensures ListingOk(StepCall(s, t, choice), StepCall(s, t, choice).calls[t])
  {
  }

  lemma DisableStepKeepsListing(s: State, t: nat, choice: bool)
    requires Enabled(s, t) && CallOk(s, s.calls[t]) && ListingOk(s, s.calls[t])
    requires Available(s, s.calls[t].intentId) ==> Holding(s.calls[t].pc) || ListedAsStored(s, s.calls[t].intentId)
    requires var pc := s.calls[t].pc;
      || pc.TryLock? || pc.LoadForDisable? || pc.Get? || pc.CommitDelete? || pc.DeleteState?
      || pc.DeleteLock? || pc.Unlock?
    ensures ListingOk(StepCall(s, t, choice), StepCall(s, t, choice).calls[t])
  {
  }

  lemma JoinKeepsListing(s: State, t: nat, choice: bool)
    requires Enabled(s, t) && CallOk(s, s.calls[t]) && ListingOk(s, s.calls[t])
    requires s.calls[t].pc.Search? || s.calls[t].pc.Scan?
    ensures ListingOk(StepCall(s, t, choice), StepCall(s, t, choice).calls[t])
  {
  }

  lemma FreeKeepsListing(s: State, t: nat, choice: bool)
    requires Enabled(s, t) && CallOk(s, s.calls[t]) && ListingOk(s, s.calls[t]) && SlotsOk(s.slots)
    requires s.calls[t].pc.FreeSlot?
    ensures ListingOk(StepCall(s, t, choice), StepCall(s, t, choice).calls[t])
  {
  }

  lemma StepKeepsListing(s: State, t: nat, choice: bool, u: nat)
    requires Inv(s) && Tidy(s) && Enabled(s, t) && u < |s.calls|
    ensures ListingOk(StepCall(s, t, choice), StepCall(s, t, choice).calls[u])
  {
    var c := s.calls[t];
    assert CallOk(s, c) && ListingOk(s, c) && ListingOk(s, s.calls[u]);
    if u == t {
      if c.pc.FreeSlot? {
        FreeKeepsListing(s, t, choice);
      } else if c.pc.Search? || c.pc.Scan? {
        JoinKeepsListing(s, t, choice);
      } else {
        assert !Held(s, c.intentId) ==> ListedAsStored(s, c.intentId);
        if c.pc.Lock? || c.pc.Load? || c.pc.Reserve? || c.pc.Refused? || c.pc.Commit? || c.pc.Store? {
          ConfigureStepKeepsListing(s, t, choice);
        } else {
          DisableStepKeepsListing(s, t, choice);
        }
      }
    } else {
      OtherCallKeepsListing(s, t, choice, u);
    }
  }

  lemma OtherCallKeepsListing(s: State, t: nat, choice: bool, u: nat)
    requires Inv(s) && Tidy(s) && Enabled(s, t) && u < |s.calls| && u != t
    ensures ListingOk(StepCall(s, t, choice), s.calls[u])
  {
    var c, d := s.calls[t], s.calls[u];
    assert Exclusive(s, t, u) && CallOk(s, c) && CallOk(s, d) && ListingOk(s, d);
    if c.intentId != d.intentId {
      OthersListingOk(s, t, choice, d);
    } else if Holding(d.pc) {
      assert Held(s, d.intentId) && !Holding(c.pc);
      assert StepCall(s, t, choice).slots == s.slots && StepCall(s, t, choice).intentState == s.intentState;
    }
  }

  /** A lock that is free after the step was free before, or is given up by the step. */
  lemma StepKeepsRest(s: State, t: nat, choice: bool, x: string)
    requires Inv(s) && Tidy(s) && Enabled(s, t) && !Held(StepCall(s, t, choice), x)
    ensures ListedAsStored(StepCall(s, t, choice), x)
  {
    var c := s.calls[t];
    assert CallOk(s, c) && ListingOk(s, c);
    if x != c.intentId {
      OthersUntouched(s, t, choice, x);
      assert !Held(s, x);
      assert ListedAsStored(s, x);
      OthersListedAsStored(s, t, choice, x);
    } else if Holding(c.pc) {
      assert c.pc.DeleteLock? || c.pc.Unlock?;
    } else {
      assert ListedAsStored(s, x);
    }
  }

  lemma StepKeepsTidy(s: State, t: nat, choice: bool)
    requires Inv(s) && Tidy(s) && NoOverlap(s) && Enabled(s, t)
    ensures Tidy(StepCall(s, t, choice))
  {
    var s' := StepCall(s, t, choice);
    assert MissOk(s, s.calls[t]);
    StepKeepsSlots(s, t, choice);
    forall u | 0 <= u < |s'.calls| ensures MissOk(s', s'.calls[u]) && ListingOk(s', s'.calls[u]) {
      StepKeepsListing(s, t, choice, u);
      assert MissOk(s, s.calls[u]);
      if u == t {
        OwnMiss(s, t, choice);
      } else {
        OtherMiss(s, t, choice, u);
        assert s'.calls[u] == s.calls[u];
      }
    }
    forall x | !Held(s', x) ensures ListedAsStored(s', x) {
      StepKeepsRest(s, t, choice, x);
    }
  }

  lemma ArrivalKeepsTidy(s: State, c: Call)
    requires Tidy(s) && (c.pc == Lock || c.pc == TryLock)
    ensures Tidy(s.(calls := s.calls + [c]))
  {
    var s' := s.(calls := s.calls + [c]);
    forall u | 0 <= u < |s'.calls| ensures MissOk(s', s'.calls[u]) && ListingOk(s', s'.calls[u]) {
      assert u < |s.calls| ==> MissOk(s, s.calls[u]) && ListingOk(s, s.calls[u]);
    }
    forall x | !Held(s', x) ensures ListedAsStored(s', x) {
      assert ListedAsStored(s, x);
    }
  }

  lemma {:induction false} RunKeepsTidy(run: seq<State>, k: nat)
    requires IsRun(run) && k < |run| && forall j :: 0 <= j < k ==> NoOverlap(run[j])
    ensures Tidy(run[k])
  {
    if k == 0 {
    } else {
      RunKeepsTidy(run, k - 1);
      RunKeepsInv(run, k - 1);
      var s, s' := run[k - 1], run[k];
      assert Step(run[k - 1], run[k - 1 + 1]);
      if t, choice :| Enabled(s, t) && s' == StepCall(s, t, choice) {
        StepKeepsTidy(s, t, choice);
      } else {
        var c: Call :| (c.pc == Lock || c.pc == TryLock) && s' == s.(calls := s.calls + [c]);
        ArrivalKeepsTidy(s, c);
      }
    }
  }

  // ---- Theorems over all runs without overlap ----

  /** The intent has no lock, no state and no slot. */
  ghost predicate Gone(s: State, x: string) {
    x !in s.locks && x !in s.intentState && forall j: nat :: !Lists(s.slots, j, x)
  }

  /** An intent without a lock has left no trace: neither in the intent state nor in any slot. */
  lemma NoLockNoTrace(run: seq<State>, k: nat, x: string)
    requires IsRun(run) && k < |run| && forall j :: 0 <= j < k ==> NoOverlap(run[j])
    ensures x !in run[k].locks ==> Gone(run[k], x)
  {
    RunKeepsTidy(run, k);
    UnheldLockHasState(run, k, x);
    if x !in run[k].locks {
      assert ListedAsStored(run[k], x);
    }
  }

  /** An intent with a free lock is listed in exactly the one slot that holds its stored id. */
  lemma FreeLockOneSlot(run: seq<State>, k: nat, x: string) returns (j: nat)
    requires IsRun(run) && k < |run| && forall i :: 0 <= i < k ==> NoOverlap(run[i])
    requires x in run[k].locks && !run[k].locks[x]
    ensures x in run[k].intentState && Lists(run[k].slots, j, x)
    ensures run[k].slots[j].collectionId == run[k].intentState[x]
    ensures forall i: nat :: Lists(run[k].slots, i, x) ==> i == j
  {
    RunKeepsTidy(run, k);
    UnheldLockHasState(run, k, x);
    var s := run[k];
    assert ListedAsStored(s, x);
    j :| 0 <= j < |s.slots| && Owns(s.slots[j], x, s.intentState[x]);
  }

  /** A disable, or a first configuration that failed, takes the intent away without a trace when it deletes
      the lock. */
  lemma DeleteLockLeavesNothing(run: seq<State>, k: nat, t: nat, choice: bool)
    requires IsRun(run) && k + 1 < |run| && forall j :: 0 <= j <= k ==> NoOverlap(run[j])
    requires Enabled(run[k], t) && run[k].calls[t].pc == DeleteLock && run[k + 1] == StepCall(run[k], t, choice)
    ensures Gone(run[k + 1], run[k].calls[t].intentId)
  {
    NoLockNoTrace(run, k + 1, run[k].calls[t].intentId);
  }

  /** Configure, then disable: an intent that was unknown and is unknown again, whatever it and all others
      did in between, has locks, state and pool exactly as before as far as it is concerned. */
  lemma ThereAndBack(run: seq<State>, k: nat, m: nat, x: string)
    requires IsRun(run) && k <= m < |run| && forall j :: 0 <= j < m ==> NoOverlap(run[j])
    requires x !in run[k].locks && x !in run[m].locks
    ensures Gone(run[k], x) && Gone(run[m], x)
  {
    NoLockNoTrace(run, k, x);
    NoLockNoTrace(run, m, x);
  }

  // ---- With overlap ----

  /** Freeing takes the intent out of one slot, so a disable leaves a trace exactly if the intent is listed in
      another one. */
  lemma WhenFreeLeavesTrace(s: State, t: nat, choice: bool)
    requires Enabled(s, t) && s.calls[t].pc.FreeSlot? && s.calls[t].pc.i < |s.slots|
    requires Owns(s.slots[s.calls[t].pc.i], s.calls[t].intentId, s.calls[t].pc.id)
    ensures var x := s.calls[t].intentId;
      (exists j :: Lists(StepCall(s, t, choice).slots, j, x))
      <==> (exists j :: j != s.calls[t].pc.i && Lists(s.slots, j, x))
  {
    var x, i, s' := s.calls[t].intentId, s.calls[t].pc.i, StepCall(s, t, choice);
    forall j: nat ensures Lists(s'.slots, j, x) <==> j != i && Lists(s.slots, j, x) {
    }
  }

  ghost predicate Leads(s: State, s': State) {
    exists run :: IsPath(run, s, s')
  }

  ghost predicate IsPath(run: seq<State>, s: State, s': State) {
    && run != [] && run[0] == s && run[|run| - 1] == s'
    && forall k :: 0 <= k < |run| - 1 ==> Step(run[k], run[k + 1])
  }

  lemma LeadsOn(s: State, s': State, s'': State)
    requires Leads(s, s') && Leads(s', s'')
    ensures Leads(s, s'')
  {
    var a :| IsPath(a, s, s');
    var b :| IsPath(b, s', s'');
    var run := a + b[1..];
    forall k | 0 <= k < |run| - 1 ensures Step(run[k], run[k + 1]) {
      if k >= |a| - 1 {
        assert run[k] == b[k - |a| + 1] && run[k + 1] == b[k - |a| + 2];
      }
    }
    assert IsPath(run, s, s'');
  }

  /** One more step on the way from `s`. */
  lemma Then(s: State, s': State, t: nat, choice: bool, s'': State)
    requires Leads(s, s') && Enabled(s', t) && s'' == StepCall(s', t, choice)
    ensures Leads(s, s'')
  {
    assert IsPath([s', s''], s', s'');
    LeadsOn(s, s', s'');
  }

  lemma ThenArrives(s: State, s': State, c: Call)
    requires Leads(s, s') && (c.pc == Lock || c.pc == TryLock)
    ensures Leads(s, s'.(calls := s'.calls + [c]))
  {
    var s'' := s'.(calls := s'.calls + [c]);
    assert IsPath([s', s''], s', s'');
    LeadsOn(s, s', s'');
  }

  lemma Stays(s: State)
    ensures Leads(s, s)
  {
    assert IsPath([s], s, s);
  }

  const SEARCHED := [Lock, Load, Search(false, 0), Search(false, 1), Search(false, 2), Reserve(false)]

  /** Two first configurations for one id, up to the end of their searches. */
  lemma BothSearch(a: string, b: string, id: string) returns (s: State)
    requires a != b && id != ""
    ensures Leads(State(map[], map[], [Slot("", {}), Slot("", {})], []), s)
    ensures s.locks == map[a := true, b := true] && s.intentState == map[]
    ensures s.slots == [Slot("", {}), Slot("", {})]
    ensures s.calls == [Call(a, id, Reserve(false)), Call(b, id, Reserve(false))]
  {
    var start := State(map[], map[], [Slot("", {}), Slot("", {})], []);
    Stays(start);
    ThenArrives(start, start, Call(a, id, Lock));
    s := start.(calls := start.calls + [Call(a, id, Lock)]);
    ThenArrives(start, s, Call(b, id, Lock));
    s := s.(calls := s.calls + [Call(b, id, Lock)]);
    for i := 0 to 5
      invariant Leads(start, s) && s.intentState == map[] && s.slots == start.slots
      invariant s.locks == if i == 0 then map[] else map[a := true]
      invariant s.calls == [Call(a, id, SEARCHED[i]), Call(b, id, Lock)]
    {
      Then(start, s, 0, true, StepCall(s, 0, true));
      s := StepCall(s, 0, true);
    }
    for i := 0 to 5
      invariant Leads(start, s) && s.intentState == map[] && s.slots == start.slots
      invariant s.locks == if i == 0 then map[a := true] else map[a := true, b := true]
      invariant s.calls == [Call(a, id, Reserve(false)), Call(b, id, SEARCHED[i])]
    {
      Then(start, s, 1, true, StepCall(s, 1, true));
      s := StepCall(s, 1, true);
    }
  }

  const TAKEN := [Reserve(false), Scan(false, 0), Scan(false, 1), Commit(false), Store, Unlock, Finished]

  /** The first call has taken slot 0 and is committing, the second one has done `i` more steps. */
  predicate Taking(s: State, a: string, b: string, id: string, i: nat) {
    && i < |TAKEN| && s.intentState == (if i < 5 then map[] else map[b := id])
    && s.locks == map[a := true, b := i < 6]
    && s.slots == [Slot(id, {a}), if i < 3 then Slot("", {}) else Slot(id, {b})]
    && s.calls == [Call(a, id, Commit(false)), Call(b, id, TAKEN[i])]
  }

  lemma TakingStep(s: State, a: string, b: string, id: string, i: nat)
    requires a != b && i < 6 && Taking(s, a, b, id, i)
    ensures Enabled(s, 1) && Taking(StepCall(s, 1, true), a, b, id, i + 1)
  {
  }

  lemma FirstTakes(s: State, a: string, b: string, id: string)
    requires a != b && s.locks == map[a := true, b := true] && s.intentState == map[]
    requires s.slots == [Slot("", {}), Slot("", {})]
    requires s.calls == [Call(a, id, Reserve(false)), Call(b, id, Reserve(false))]
    ensures Enabled(s, 0) && Enabled(StepCall(s, 0, true), 0)
    ensures Taking(StepCall(StepCall(s, 0, true), 0, true), a, b, id, 0)
  {
  }

  /** Each takes a slot, and the second one finishes. */
  lemma BothTake(start: State, s0: State, a: string, b: string, id: string) returns (s: State)
    requires a != b && Leads(start, s0) && s0.locks == map[a := true, b := true] && s0.intentState == map[]
    requires s0.slots == [Slot("", {}), Slot("", {})]
    requires s0.calls == [Call(a, id, Reserve(false)), Call(b, id, Reserve(false))]
    ensures Leads(start, s) && Taking(s, a, b, id, 6)
  {
    FirstTakes(s0, a, b, id);
    Then(start, s0, 0, true, StepCall(s0, 0, true));
    Then(start, StepCall(s0, 0, true), 0, true, StepCall(StepCall(s0, 0, true), 0, true));
    s := StepCall(StepCall(s0, 0, true), 0, true);
    for i := 0 to 6
      invariant Leads(start, s) && Taking(s, a, b, id, i)
    {
      TakingStep(s, a, b, id, i);
      Then(start, s, 1, true, StepCall(s, 1, true));
      s := StepCall(s, 1, true);
    }
  }

  const JOINED := [Lock, Load, Search(true, 0), Commit(true), Store, Unlock, Finished]

  /** The second intent is being configured again, for `i` steps. */
  predicate Joining(s: State, a: string, b: string, id: string, i: nat) {
    && i < |JOINED| && s.intentState == map[b := id]
    && s.locks == map[a := true, b := 0 < i < 6]
    && s.slots == [Slot(id, if i < 3 then {a} else {a, b}), Slot(id, {b})]
    && |s.calls| == 3 && s.calls[2] == Call(b, id, JOINED[i])
  }

  lemma JoiningStep(s: State, a: string, b: string, id: string, i: nat)
    requires a != b && i < 6 && Joining(s, a, b, id, i)
    ensures Enabled(s, 2) && Joining(StepCall(s, 2, true), a, b, id, i + 1)
  {
    assert {a} + {b} == {a, b};
  }

  /** It joins the first slot too. */
  lemma JoinsFirst(start: State, s0: State, a: string, b: string, id: string) returns (s: State)
    requires a != b && Leads(start, s0) && Taking(s0, a, b, id, 6)
    ensures Leads(start, s) && Joining(s, a, b, id, 6)
  {
    ThenArrives(start, s0, Call(b, id, Lock));
    s := s0.(calls := s0.calls + [Call(b, id, Lock)]);
    for i := 0 to 6
      invariant Leads(start, s) && Joining(s, a, b, id, i)
    {
      JoiningStep(s, a, b, id, i);
      Then(start, s, 2, true, StepCall(s, 2, true));
      s := StepCall(s, 2, true);
    }
  }

  function Disabling(id: string): seq<Pc> {
    [TryLock, LoadForDisable, Get(id, 0), CommitDelete(id), DeleteState(id), FreeSlot(id, 0), DeleteLock, Finished]
  }

  /** The second intent is being disabled, for `i` steps. */
  predicate Leaving(s: State, a: string, b: string, id: string, i: nat) {
    && i < 8 && s.intentState == (if i < 5 then map[b := id] else map[])
    && s.locks == (if i < 7 then map[a := true, b := 0 < i] else map[a := true])
    && s.slots == [Slot(id, if i < 6 then {a, b} else {a}), Slot(id, {b})]
    && |s.calls| == 4 && s.calls[3] == Call(b, id, Disabling(id)[i])
  }

  lemma LeavingStep(s: State, a: string, b: string, id: string, i: nat)
    requires a != b && i < 7 && Leaving(s, a, b, id, i)
    ensures Enabled(s, 3) && Leaving(StepCall(s, 3, true), a, b, id, i + 1)
  {
    assert {a, b} - {b} == {a};
  }

  /** It leaves the first slot and stays in the second one. */
  lemma LeavesTrace(start: State, s0: State, a: string, b: string, id: string) returns (s: State)
    requires a != b && Leads(start, s0) && Joining(s0, a, b, id, 6)
    ensures Leads(start, s) && Leaving(s, a, b, id, 7)
  {
    ThenArrives(start, s0, Call(b, id, TryLock));
    s := s0.(calls := s0.calls + [Call(b, id, TryLock)]);
    for i := 0 to 7
      invariant Leads(start, s) && Leaving(s, a, b, id, i)
    {
      LeavingStep(s, a, b, id, i);
      Then(start, s, 3, true, StepCall(s, 3, true));
      s := StepCall(s, 3, true);
    }
  }

  /** Why the calls must not overlap: a run in which two first configurations for one id do, and then the
      second intent is configured again and disabled. It has no lock and no state any more, but its slot. */
  lemma OverlapLeavesTrace(a: string, b: string, id: string) returns (run: seq<State>)
    requires a != b && id != ""
    ensures IsRun(run)
    ensures var s := run[|run| - 1]; b !in s.locks && b !in s.intentState && Lists(s.slots, 1, b)
  {
    var start := State(map[], map[], [Slot("", {}), Slot("", {})], []);
    var s1 := BothSearch(a, b, id);
    var s2 := BothTake(start, s1, a, b, id);
    var s3 := JoinsFirst(start, s2, a, b, id);
    var s4 := LeavesTrace(start, s3, a, b, id);
    run :| IsPath(run, start, s4);
  }
}
