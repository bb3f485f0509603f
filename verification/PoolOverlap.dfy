/** One collection id in two slots.

    That is impossible unless two calls for the id overlap between searching and taking a slot, and
    possible whenever they do. */
module PoolOverlap {
  import opened Wrappers
  import opened CollectionIds
  import opened PoolInterleaving

  // ---- Calls for one id, one at a time ----

  /** How many slots an AllocOrGet call has found not to hold its id and still relies on that. */
  function Passed(pc: Pc, n: nat): nat {
    match pc
    case Search(i) => i
    case SearchHeld(i) => i
    case SearchMiss(i) => i + 1
    case LoadUp => n
    case CasUp(_) => n
    case Scan(_) => n
    case ScanHeld(_) => n
    case ScanMiss(_) => n
    case _ => 0
  }

  /** Between the first slot searched in vain and the slot found or taken. */
  predicate Seeking(s: State, t: nat)
    requires t < |s.threads|
  {
    Passed(s.threads[t].pc, |s.slots|) > 0
  }

  /** No two calls for the same id are seeking. Calls for different ids, and all Free calls, may overlap
      as they like. */
  ghost predicate NoOverlap(s: State) {
    forall t: nat, u: nat :: t < u < |s.threads| && Seeking(s, t) && Seeking(s, u) ==>
      s.threads[t].collectionId != s.threads[u].collectionId
  }

  ghost predicate UniqueIds(slots: seq<Slot>) {
    forall i, j :: 0 <= i < j < |slots| && slots[i].collectionId != "" ==>
      slots[i].collectionId != slots[j].collectionId
  }

  /** The slots passed do not hold the id. */
  ghost predicate MissOk(s: State, t: nat)
    requires t < |s.threads|
  {
    forall i :: 0 <= i < |s.slots| && i < Passed(s.threads[t].pc, |s.slots|) ==>
      s.slots[i].collectionId != s.threads[t].collectionId
  }

  ghost predicate Exclusive(s: State) {
    UniqueIds(s.slots) && forall t: nat :: t < |s.threads| ==> MissOk(s, t)
  }

  /** The only step that gives a slot a new id: a seeking thread takes a free slot. */
  lemma OnlyTakeWritesId(s: State, t: nat, i: nat)
    requires LocalOk(s) && Enabled(s, t) && i < |s.slots|
    ensures var s' := StepThread(s, t);
      && |s'.slots| == |s.slots| && |s'.threads| == |s.threads|
      && (s'.slots[i].collectionId == s.slots[i].collectionId || s'.slots[i].collectionId == ""
          || (s.threads[t].pc == ScanHeld(i) && s'.slots[i].collectionId == s.threads[t].collectionId))
  {
  }

  lemma OwnMiss(s: State, t: nat)
    requires LocalOk(s) && Enabled(s, t) && MissOk(s, t)
    ensures |StepThread(s, t).threads| == |s.threads| && MissOk(StepThread(s, t), t)
  {
    assert ThreadOk(s, t);
  }

  lemma OtherMiss(s: State, t: nat, u: nat)
    requires LocalOk(s) && Enabled(s, t) && u < |s.threads| && u != t && MissOk(s, u) && NoOverlap(s)
    ensures |StepThread(s, t).threads| == |s.threads| && MissOk(StepThread(s, t), u)
  {
    var s' := StepThread(s, t);
    assert ThreadOk(s, u) && ThreadOk(s, t);
    forall i | 0 <= i < |s.slots| && i < Passed(s.threads[u].pc, |s.slots|)
      ensures s'.slots[i].collectionId != s.threads[u].collectionId
    {
      OnlyTakeWritesId(s, t, i);
      if s.threads[t].pc == ScanHeld(i) {
        assert Seeking(s, t) && Seeking(s, u);
      }
    }
  }

  lemma IdsStayDistinct(s: State, t: nat)
    requires LocalOk(s) && Enabled(s, t) && Exclusive(s)
    ensures UniqueIds(StepThread(s, t).slots)
  {
    var s' := StepThread(s, t);
    assert ThreadOk(s, t) && MissOk(s, t);
    forall i, j | 0 <= i < j < |s'.slots| && s'.slots[i].collectionId != ""
      ensures s'.slots[i].collectionId != s'.slots[j].collectionId
    {
      OnlyTakeWritesId(s, t, i);
      OnlyTakeWritesId(s, t, j);
    }
  }

  lemma MoveKeepsExclusive(s: State, t: nat)
    requires Inv(s) && Exclusive(s) && NoOverlap(s) && Enabled(s, t)
    ensures Exclusive(StepThread(s, t))
  {
    var s' := StepThread(s, t);
    IdsStayDistinct(s, t);
    forall u: nat | u < |s'.threads| ensures MissOk(s', u) {
      OnlyThreadMoves(s, t);
      assert MissOk(s, u) && MissOk(s, t);
      if u == t {
        OwnMiss(s, t);
      } else {
        OtherMiss(s, t, u);
      }
    }
  }

  lemma OnlyThreadMoves(s: State, t: nat)
    requires Enabled(s, t)
    ensures |StepThread(s, t).threads| == |s.threads|
  {
  }

  lemma ArrivalKeepsExclusive(s: State, th: Thread)
    requires Exclusive(s) && (th.pc == Search(0) || th.pc == FreeSeek(0))
    ensures Exclusive(s.(threads := s.threads + [th]))
  {
    var s' := s.(threads := s.threads + [th]);
    forall u: nat | u < |s'.threads| ensures MissOk(s', u) {
      assert u < |s.threads| ==> MissOk(s, u);
    }
  }

  lemma StepKeepsExclusive(s: State, s': State)
    requires Inv(s) && Exclusive(s) && NoOverlap(s) && Step(s, s')
    ensures Exclusive(s')
  {
    if t :| Enabled(s, t) && s' == StepThread(s, t) {
      MoveKeepsExclusive(s, t);
    } else {
      var th: Thread :| (th.pc == Search(0) || th.pc == FreeSeek(0)) && th.collectionId != ""
                        && s' == s.(threads := s.threads + [th]);
      ArrivalKeepsExclusive(s, th);
    }
  }

  lemma {:induction false} RunKeepsExclusive(run: seq<State>, k: nat)
    requires IsRun(run) && k < |run| && forall j :: 0 <= j < k ==> NoOverlap(run[j])
    ensures Exclusive(run[k])
  {
    if k == 0 {
    } else {
      RunKeepsExclusive(run, k - 1);
      RunKeepsInv(run, k - 1);
      StepKeepsExclusive(run[k - 1], run[k]);
    }
  }

  /** As long as calls for one id do not overlap, whatever else does, no id is in two slots. */
  lemma NoIdInTwoSlots(run: seq<State>, k: nat)
    requires IsRun(run) && k < |run| && forall j :: 0 <= j < k ==> NoOverlap(run[j])
    ensures UniqueIds(run[k].slots)
  {
    RunKeepsExclusive(run, k);
  }

  // ---- Calls for one id that overlap ----

  /** Some steps lead from `s` to `s'`. */
  ghost predicate Leads(s: State, s': State) {
    exists run :: IsPath(run, s, s')
  }

  ghost predicate IsPath(run: seq<State>, s: State, s': State) {
    && run != [] && run[0] == s && run[|run| - 1] == s'
    && forall k :: 0 <= k < |run| - 1 ==> Step(run[k], run[k + 1])
  }

  lemma LeadsOn(s: State, s': State, s'': State)
    requires Leads(s, s') && Leads(s', s'')
    ensures Leads(s, s'')
  {
    var a :| IsPath(a, s, s');
    var b :| IsPath(b, s', s'');
    var run := a + b[1..];
    forall k | 0 <= k < |run| - 1 ensures Step(run[k], run[k + 1]) {
      if k >= |a| - 1 {
        assert run[k] == b[k - |a| + 1] && run[k + 1] == b[k - |a| + 2];
      }
    }
    assert IsPath(run, s, s'');
  }

  lemma StayLeads(s: State)
    ensures Leads(s, s)
  {
    assert IsPath([s], s, s);
  }

  lemma StepLeads(s: State, s': State)
    requires Step(s, s')
    ensures Leads(s, s')
  {
    assert IsPath([s, s'], s, s');
  }

  /** Thread `t` moves three times without being disturbed. */
  lemma ThreeSteps(s: State, t: nat)
    requires Enabled(s, t) && Enabled(StepThread(s, t), t) && Enabled(StepThread(StepThread(s, t), t), t)
    ensures Leads(s, StepThread(StepThread(StepThread(s, t), t), t))
  {
    var s1 := StepThread(s, t);
    var s2 := StepThread(s1, t);
    StepLeads(s, s1);
    StepLeads(s1, s2);
    LeadsOn(s, s1, s2);
    StepLeads(s2, StepThread(s2, t));
    LeadsOn(s, s2, StepThread(s2, t));
  }

  /** No mutex is held. */
  ghost predicate Unlocked(s: State) {
    |s.locks| == |s.slots| && forall i :: 0 <= i < |s.locks| ==> s.locks[i] == None
  }

  /** A visit to a slot that does not interest the thread. */
  lemma PassSlot(s: State, t: nat, i: nat, pc: Pc)
    requires t < |s.threads| && i < |s.slots| && Unlocked(s)
    requires var th := s.threads[t];
      || (th.pc == Search(i) && s.slots[i].collectionId != th.collectionId && pc == Search(i + 1))
      || (th.pc == Scan(i) && s.slots[i].intents != {} && pc == Scan(i + 1))
    ensures Leads(s, Goto(s, t, pc))
  {
    ThreeSteps(s, t);
    assert s.locks[i := Some(t)][i := None] == s.locks;
    assert Goto(s, t, pc) == StepThread(StepThread(StepThread(s, t), t), t);
  }

  lemma {:induction false} SearchInVain(s: State, t: nat, i: nat)
    requires t < |s.threads| && i <= |s.slots| && Unlocked(s) && s.threads[t].pc == Search(i)
    requires forall j :: i <= j < |s.slots| ==> s.slots[j].collectionId != s.threads[t].collectionId
    ensures Leads(s, Goto(s, t, Search(|s.slots|)))
    decreases |s.slots| - i
  {
    if i == |s.slots| {
      StayLeads(s);
      assert Goto(s, t, Search(i)) == s;
    } else {
      var s' := Goto(s, t, Search(i + 1));
      PassSlot(s, t, i, Search(i + 1));
      SearchInVain(s', t, i + 1);
      assert Goto(s', t, Search(|s.slots|)) == Goto(s, t, Search(|s.slots|));
      LeadsOn(s, s', Goto(s, t, Search(|s.slots|)));
    }
  }

  lemma {:induction false} ScanTo(s: State, t: nat, i: nat, f: nat)
    requires t < |s.threads| && i <= f <= |s.slots| && Unlocked(s) && s.threads[t].pc == Scan(i)
    requires forall j :: i <= j < f ==> s.slots[j].intents != {}
    ensures Leads(s, Goto(s, t, Scan(f)))
    decreases f - i
  {
    if i == f {
      StayLeads(s);
      assert Goto(s, t, Scan(i)) == s;
    } else {
      var s' := Goto(s, t, Scan(i + 1));
      PassSlot(s, t, i, Scan(i + 1));
      ScanTo(s', t, i + 1, f);
      assert Goto(s', t, Scan(f)) == Goto(s, t, Scan(f));
      LeadsOn(s, s', Goto(s, t, Scan(f)));
    }
  }

  /** The state after thread `t` reserved a slot and took `f`. */
  function Taken(s: State, t: nat, f: nat): State
    requires t < |s.threads| && f < |s.slots|
  {
    State(s.slots[f := Slot(s.threads[t].collectionId, {s.threads[t].intentId})], s.locks, s.allocCounter + 1,
          s.threads[t := s.threads[t].(pc := Returned(f))])
  }

  lemma TakeSlot(s: State, t: nat, f: nat)
    requires t < |s.threads| && f < |s.slots| && Unlocked(s)
    requires s.threads[t].pc == Scan(f) && s.slots[f].intents == {}
    ensures Leads(s, Taken(s.(allocCounter := s.allocCounter - 1), t, f))
  {
    ThreeSteps(s, t);
    assert s.locks[f := Some(t)][f := None] == s.locks;
    assert Taken(s.(allocCounter := s.allocCounter - 1), t, f) == StepThread(StepThread(StepThread(s, t), t), t);
  }

  function Reserved(s: State, t: nat): State
    requires t < |s.threads|
  {
    Goto(s, t, Scan(0)).(allocCounter := s.allocCounter + 1)
  }

  lemma ReserveSlot(s: State, t: nat)
    requires t < |s.threads| && |s.locks| == |s.slots| && s.allocCounter < |s.slots|
    requires s.threads[t].pc == Search(|s.slots|)
    ensures Leads(s, Reserved(s, t))
  {
    ThreeSteps(s, t);
    assert Reserved(s, t) == StepThread(StepThread(StepThread(s, t), t), t);
  }

  /** From the end of the search to the end of the call. */
  lemma ReserveAndTake(s: State, t: nat, f: nat)
    requires t < |s.threads| && f < |s.slots| && Unlocked(s) && s.allocCounter < |s.slots|
    requires s.threads[t].pc == Search(|s.slots|) && FirstFree(s.slots) == f
    ensures Leads(s, Taken(s, t, f))
  {
    ReserveSlot(s, t);
    var s1 := Reserved(s, t);
    ScanTo(s1, t, 0, f);
    var s2 := Goto(s1, t, Scan(f));
    LeadsOn(s, s1, s2);
    TakeSlot(s2, t, f);
    assert Taken(s2.(allocCounter := s.allocCounter), t, f) == Taken(s, t, f);
    LeadsOn(s, s2, Taken(s, t, f));
  }

  // ---- From every state at rest ----

  /** No call is running. */
  ghost predicate AtRest(s: State) {
    forall t :: 0 <= t < |s.threads| ==> Finished(s.threads[t].pc)
  }

  lemma {:induction false} NothingPending(threads: seq<Thread>)
    requires forall t :: 0 <= t < |threads| ==> Finished(threads[t].pc)
    ensures ReservedFrom(threads, 0) == 0 && PendingDecrements(threads) == 0
  {
    if threads == [] {
    } else {
      NothingPending(threads[1..]);
    }
  }

  lemma {:induction false} FreeIsUnoccupied(slots: seq<Slot>, p: nat)
    requires p <= |slots|
    ensures FreeFrom(slots, p) == |slots| - p - Occupied(slots[p..])
    decreases |slots| - p
  {
    if p == |slots| {
    } else {
      FreeIsUnoccupied(slots, p + 1);
      assert slots[p..][1..] == slots[p + 1..];
    }
  }

  /** At rest all mutexes are free, the counter counts the occupied slots, and a slot is free exactly if it
      has no id. */
  lemma AtRestIsQuiet(run: seq<State>, k: nat)
    requires IsRun(run) && k < |run| && AtRest(run[k])
    ensures Unlocked(run[k]) && run[k].allocCounter == Occupied(run[k].slots)
    ensures forall i :: 0 <= i < |run[k].slots| ==>
      (run[k].slots[i].intents == {} <==> run[k].slots[i].collectionId == "")
  {
    RunKeepsInv(run, k);
    var s := run[k];
    NothingPending(s.threads);
    FreeIsUnoccupied(s.slots, 0);
    assert s.slots[0..] == s.slots;
    forall i | 0 <= i < |s.slots|
      ensures s.locks[i] == None && (s.slots[i].intents == {} <==> s.slots[i].collectionId == "")
    {
      assert SlotOk(s, i);
    }
  }

  /** Two more calls for the same id. */
  function TwoCalls(s: State, x: string, y: string, id: string, p: Pc, q: Pc): State {
    s.(threads := s.threads + [Thread(x, id, p), Thread(y, id, q)])
  }

  lemma BothSearch(s: State, x: string, y: string, id: string)
    requires Unlocked(s) && id != "" && forall i :: 0 <= i < |s.slots| ==> s.slots[i].collectionId != id
    ensures Leads(s, TwoCalls(s, x, y, id, Search(|s.slots|), Search(|s.slots|)))
  {
    var n, t := |s.slots|, |s.threads|;
    var s1 := s.(threads := s.threads + [Thread(x, id, Search(0))]);
    var s2 := TwoCalls(s, x, y, id, Search(0), Search(0));
    assert s2.threads == s1.threads + [Thread(y, id, Search(0))];
    StepLeads(s, s1);
    StepLeads(s1, s2);
    LeadsOn(s, s1, s2);
    SearchInVain(s2, t, 0);
    var s3 := Goto(s2, t, Search(n));
    LeadsOn(s, s2, s3);
    SearchInVain(s3, t + 1, 0);
    assert Goto(s3, t + 1, Search(n)) == TwoCalls(s, x, y, id, Search(n), Search(n));
    LeadsOn(s, s3, Goto(s3, t + 1, Search(n)));
  }

  /** Both calls have searched all slots; now one after the other takes a free one. */
  lemma BothTake(s: State, t: nat, f: nat, g: nat)
    requires t + 1 < |s.threads| && f < g < |s.slots| && Unlocked(s) && s.allocCounter + 1 < |s.slots|
    requires s.threads[t].pc == Search(|s.slots|) && s.threads[t + 1].pc == Search(|s.slots|)
    requires FirstFree(s.slots) == f && s.slots[g].intents == {}
    requires forall i :: f < i < g ==> s.slots[i].intents != {}
    ensures Leads(s, Taken(Taken(s, t, f), t + 1, g))
  {
    var s1 := Taken(s, t, f);
    ReserveAndTake(s, t, f);
    FirstFreeIs(s1.slots, g);
    ReserveAndTake(s1, t + 1, g);
    LeadsOn(s, s1, Taken(s1, t + 1, g));
  }

  lemma FirstFreeIs(slots: seq<Slot>, g: nat)
    requires g < |slots| && slots[g].intents == {} && forall i :: 0 <= i < g ==> slots[i].intents != {}
    ensures FirstFree(slots) == g
  {
  }

  lemma {:induction false} TwoFree(slots: seq<Slot>, f: nat, g: nat)
    requires f < g < |slots| && slots[f].intents == {} && slots[g].intents == {}
    ensures Occupied(slots) + 2 <= |slots|
  {
    FullPool(slots[1..]);
    if f == 0 {
      FullPool(slots[1..]);
      assert slots[1..][g - 1].intents == {};
    } else {
      TwoFree(slots[1..], f - 1, g - 1);
    }
  }

  lemma SecondOwnerIsLater(slots: seq<Slot>, x: string, y: string, id: string, f: nat, g: nat)
    requires f < g < |slots| && slots[f] == Slot(id, {x}) && slots[g] == Slot(id, {y})
    ensures OwnsLater(slots, y, id)
  {
    assert FirstWithId(slots, id) <= f;
    assert Owns(slots[g], y, id);
  }

  /** Conversely, whatever happened before: at rest, with an id that is in no slot, let `f` and `g` be the
      first two free slots. Two calls for the id that both search before either takes a slot put the id
      into both, and the second intent will leak. */
  lemma OverlapDuplicates(run: seq<State>, x: string, y: string, id: string, f: nat, g: nat)
    returns (longer: seq<State>)
    requires IsRun(run) && AtRest(run[|run| - 1]) && id != ""
    requires var slots := run[|run| - 1].slots;
      && (forall i :: 0 <= i < |slots| ==> slots[i].collectionId != id)
      && FirstFree(slots) == f < g < |slots| && slots[g].intents == {}
      && (forall i :: f < i < g ==> slots[i].intents != {})
    ensures IsRun(longer) && run <= longer && AtRest(longer[|longer| - 1])
    ensures longer[|longer| - 1].slots == run[|run| - 1].slots[f := Slot(id, {x})][g := Slot(id, {y})]
    ensures OwnsLater(longer[|longer| - 1].slots, y, id)
  {
    var s := run[|run| - 1];
    var n := |s.slots|;
    AtRestIsQuiet(run, |run| - 1);
    TwoFree(s.slots, f, g);
    var s1 := TwoCalls(s, x, y, id, Search(n), Search(n));
    BothSearch(s, x, y, id);
    BothTake(s1, |s.threads|, f, g);
    var s2 := Taken(Taken(s1, |s.threads|, f), |s.threads| + 1, g);
    LeadsOn(s, s1, s2);
    SecondOwnerIsLater(s2.slots, x, y, id, f, g);
    var path :| IsPath(path, s, s2);
    longer := run + path[1..];
    forall k | 0 <= k < |longer| - 1 ensures Step(longer[k], longer[k + 1]) {
      if k >= |run| - 1 {
        assert longer[k] == path[k - |run| + 1] && longer[k + 1] == path[k - |run| + 2];
      }
    }
  }

  // ---- What a duplicate leaves behind ----

  /** Without overlap nothing leaks: an undisturbed configuration and disabling of any intent, at rest,
      leaves the intent in no slot of the id. */
  lemma NothingLeaks(run: seq<State>, k: nat, x: string, id: string, j: nat)
    requires IsRun(run) && k < |run| && AtRest(run[k]) && forall i :: 0 <= i < k ==> NoOverlap(run[i])
    requires id != ""
    ensures var s := PoolState(run[k].slots, run[k].allocCounter);
      var after := AfterFree(AfterAlloc(s, x, id).0, x, id);
      j < |after.slots| ==> !Owns(after.slots[j], x, id)
  {
    NoIdInTwoSlots(run, k);
    WhenIdLeaks(PoolState(run[k].slots, run[k].allocCounter), x, id);
  }
}
