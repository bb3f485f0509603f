/** The pool under concurrency: a thread that reserved a slot always finds one. */
module PoolInterleaving {
  // Any number of threads run AllocOrGet and Free. A step of one thread is one mutex operation, one
  // atomic load or compare-and-swap, or one access to a slot whose mutex it holds.

  import opened Wrappers
  import opened CollectionIds

  /** Where a thread is. `i` is the slot it is about to lock or holds. */
  datatype Pc =
    | Search(i: nat) | SearchHeld(i: nat) | SearchMiss(i: nat)
    | LoadUp | CasUp(seen: int)
    | Scan(i: nat) | ScanHeld(i: nat) | ScanMiss(i: nat) | Leave(i: nat)
    | FreeSeek(i: nat) | FreeHeld(i: nat) | FreeMiss(i: nat)
    | FreeClear(i: nat) | LoadDown(i: nat) | CasDown(i: nat, seen: int) | FreeLeave(i: nat)
    | Returned(i: nat) | Refused | Freed | Panicked

  datatype Thread = Thread(intentId: string, collectionId: string, pc: Pc)

  datatype State = State(slots: seq<Slot>, locks: seq<Option<nat>>, allocCounter: int, threads: seq<Thread>)

  /** The slot whose mutex a thread holds. */
  function Holds(pc: Pc): Option<nat> {
    match pc
    case SearchHeld(i) => Some(i)
    case SearchMiss(i) => Some(i)
    case ScanHeld(i) => Some(i)
    case ScanMiss(i) => Some(i)
    case Leave(i) => Some(i)
    case FreeHeld(i) => Some(i)
    case FreeMiss(i) => Some(i)
    case FreeClear(i) => Some(i)
    case LoadDown(i) => Some(i)
    case CasDown(i, _) => Some(i)
    case FreeLeave(i) => Some(i)
    case _ => None
  }

  /** The slot a thread waits for, if it is about to lock one. */
  function Wants(pc: Pc): Option<nat> {
    match pc
    case Search(i) => Some(i)
    case Scan(i) => Some(i)
    case FreeSeek(i) => Some(i)
    case _ => None
  }

  predicate Finished(pc: Pc) {
    pc.Returned? || pc.Refused? || pc.Freed? || pc.Panicked?
  }

  predicate Enabled(s: State, t: nat) {
    && t < |s.threads|
    && |s.locks| == |s.slots|
    && !Finished(s.threads[t].pc)
    && (Holds(s.threads[t].pc).Some? ==> Holds(s.threads[t].pc).value < |s.slots|)
    && (Wants(s.threads[t].pc).Some? && Wants(s.threads[t].pc).value < |s.slots| ==>
          s.locks[Wants(s.threads[t].pc).value] == None)
  }

  function Goto(s: State, t: nat, pc: Pc): State
    requires t < |s.threads|
  {
    s.(threads := s.threads[t := s.threads[t].(pc := pc)])
  }

  function Lock(s: State, t: nat, i: nat, pc: Pc): State
    requires t < |s.threads| && i < |s.locks|
  {
    Goto(s, t, pc).(locks := s.locks[i := Some(t)])
  }

  function Unlock(s: State, t: nat, i: nat, pc: Pc): State
    requires t < |s.threads| && i < |s.locks|
  {
    Goto(s, t, pc).(locks := s.locks[i := None])
  }

  function Write(s: State, t: nat, i: nat, slot: Slot, pc: Pc): State
    requires t < |s.threads| && i < |s.slots|
  {
    Goto(s, t, pc).(slots := s.slots[i := slot])
  }

  /** One step of thread `t`. Which thread moves is the only choice left open. */
  function StepThread(s: State, t: nat): State
    requires Enabled(s, t)
  {
    var th := s.threads[t];
    var n := |s.slots|;
    match th.pc
    case Search(i) => if i < n then Lock(s, t, i, SearchHeld(i)) else Goto(s, t, LoadUp)
    case SearchHeld(i) =>
      if s.slots[i].collectionId == th.collectionId then
        Write(s, t, i, s.slots[i].(intents := s.slots[i].intents + {th.intentId}), Leave(i))
      else Goto(s, t, SearchMiss(i))
    case SearchMiss(i) => Unlock(s, t, i, Search(i + 1))
    case LoadUp => if s.allocCounter >= n then Goto(s, t, Refused) else Goto(s, t, CasUp(s.allocCounter))
    case CasUp(seen) =>
      if s.allocCounter == seen then Goto(s, t, Scan(0)).(allocCounter := seen + 1) else Goto(s, t, LoadUp)
    case Scan(i) => if i < n then Lock(s, t, i, ScanHeld(i)) else Goto(s, t, Panicked)
    case ScanHeld(i) =>
      if s.slots[i].intents == {} then Write(s, t, i, Slot(th.collectionId, {th.intentId}), Leave(i))
      else Goto(s, t, ScanMiss(i))
    case ScanMiss(i) => Unlock(s, t, i, Scan(i + 1))
    case Leave(i) => Unlock(s, t, i, Returned(i))
    case FreeSeek(i) => if i < n then Lock(s, t, i, FreeHeld(i)) else Goto(s, t, Freed)
    case FreeHeld(i) =>
      if Owns(s.slots[i], th.intentId, th.collectionId) then
        var left := s.slots[i].intents - {th.intentId};
        Write(s, t, i, s.slots[i].(intents := left), if left == {} then FreeClear(i) else FreeLeave(i))
      else Goto(s, t, FreeMiss(i))
    case FreeMiss(i) => Unlock(s, t, i, FreeSeek(i + 1))
    case FreeClear(i) => Write(s, t, i, s.slots[i].(collectionId := ""), LoadDown(i))
    case LoadDown(i) => Goto(s, t, CasDown(i, s.allocCounter))
    case CasDown(i, seen) =>
      if s.allocCounter == seen then Goto(s, t, FreeLeave(i)).(allocCounter := seen - 1) else Goto(s, t, LoadDown(i))
    case FreeLeave(i) => Unlock(s, t, i, Freed)
    case Returned(_) => s
    case Refused => s
    case Freed => s
    case Panicked => s
  }

  /** A step of the system: some thread moves, or a new call with a non-empty id arrives. */
  ghost predicate Step(s: State, s': State) {
    || (exists t :: Enabled(s, t) && s' == StepThread(s, t))
    || (exists th: Thread :: (th.pc == Search(0) || th.pc == FreeSeek(0)) && th.collectionId != ""
          && s' == s.(threads := s.threads + [th]))
  }

  ghost predicate Initial(s: State) {
    && |s.locks| == |s.slots|
    && s.allocCounter == 0 && s.threads == []
    && (forall i :: 0 <= i < |s.slots| ==> s.slots[i] == Slot("", {}) && s.locks[i] == None)
  }

  ghost predicate IsRun(run: seq<State>) {
    && run != [] && Initial(run[0])
    && (forall k :: 0 <= k < |run| - 1 ==> Step(run[k], run[k + 1]))
  }

  // ---- Counting ----

  /** Free slots at index `p` or later. */
  function FreeFrom(slots: seq<Slot>, p: nat): nat
    decreases |slots| - p
  {
    if p >= |slots| then 0 else (if slots[p].intents == {} then 1 else 0) + FreeFrom(slots, p + 1)
  }

  /** The slot a reserved thread looks at. */
  function Position(pc: Pc): Option<nat> {
    match pc
    case Scan(i) => Some(i)
    case ScanHeld(i) => Some(i)
    case ScanMiss(i) => Some(i)
    case _ => None
  }

  function AtOrAfter(pc: Pc, p: nat): nat {
    if Position(pc).Some? && Position(pc).value >= p then 1 else 0
  }

  /** Reserved threads looking at slot `p` or later. */
  function ReservedFrom(threads: seq<Thread>, p: nat): nat {
    if threads == [] then 0 else AtOrAfter(threads[0].pc, p) + ReservedFrom(threads[1..], p)
  }

  function Owing(pc: Pc): nat {
    if pc.FreeClear? || pc.LoadDown? || pc.CasDown? then 1 else 0
  }

  /** Threads that emptied a slot and still have to decrement the counter. */
  function PendingDecrements(threads: seq<Thread>): nat {
    if threads == [] then 0 else Owing(threads[0].pc) + PendingDecrements(threads[1..])
  }

  lemma {:induction false} FreeFromUpdate(slots: seq<Slot>, i: nat, x: Slot, p: nat)
    requires i < |slots|
    ensures FreeFrom(slots[i := x], p) == if i < p then FreeFrom(slots, p)
      else FreeFrom(slots, p) - (if slots[i].intents == {} then 1 else 0) + (if x.intents == {} then 1 else 0)
    decreases |slots| - p
  {
    if p >= |slots| {
    } else {
      FreeFromUpdate(slots, i, x, p + 1);
    }
  }

  lemma {:induction false} ReservedUpdate(threads: seq<Thread>, t: nat, x: Thread, p: nat)
    requires t < |threads|
    ensures ReservedFrom(threads[t := x], p)
         == ReservedFrom(threads, p) - AtOrAfter(threads[t].pc, p) + AtOrAfter(x.pc, p)
  {
    if t == 0 {
      assert threads[t := x][1..] == threads[1..];
    } else {
      ReservedUpdate(threads[1..], t - 1, x, p);
      assert threads[t := x][1..] == threads[1..][t - 1 := x];
    }
  }

  lemma {:induction false} PendingUpdate(threads: seq<Thread>, t: nat, x: Thread)
    requires t < |threads|
    ensures PendingDecrements(threads[t := x])
         == PendingDecrements(threads) - Owing(threads[t].pc) + Owing(x.pc)
  {
    if t == 0 {
      assert threads[t := x][1..] == threads[1..];
    } else {
      PendingUpdate(threads[1..], t - 1, x);
      assert threads[t := x][1..] == threads[1..][t - 1 := x];
    }
  }

  lemma {:induction false} CountersAppend(threads: seq<Thread>, th: Thread, p: nat)
    ensures ReservedFrom(threads + [th], p) == ReservedFrom(threads, p) + AtOrAfter(th.pc, p)
    ensures PendingDecrements(threads + [th]) == PendingDecrements(threads) + Owing(th.pc)
  {
    if threads == [] {
      assert threads + [th] == [th];
    } else {
      CountersAppend(threads[1..], th, p);
      assert (threads + [th])[1..] == threads[1..] + [th];
    }
  }

  lemma {:induction false} ReservedAtLeastOne(threads: seq<Thread>, t: nat, p: nat)
    requires t < |threads|
    ensures ReservedFrom(threads, p) >= AtOrAfter(threads[t].pc, p)
  {
    if t == 0 {
    } else {
      ReservedAtLeastOne(threads[1..], t - 1, p);
    }
  }

  lemma {:induction false} AllSlotsFree(slots: seq<Slot>, p: nat)
    requires p <= |slots|
    requires forall i :: 0 <= i < |slots| ==> slots[i].intents == {}
    ensures FreeFrom(slots, p) == |slots| - p
    decreases |slots| - p
  {
    if p >= |slots| {
    } else {
      AllSlotsFree(slots, p + 1);
    }
  }

  // ---- The invariant ----

  ghost predicate ThreadOk(s: State, t: nat)
    requires t < |s.threads| && |s.locks| == |s.slots|
  {
    var pc := s.threads[t].pc;
    var n := |s.slots|;
    && s.threads[t].collectionId != ""
    && (Holds(pc).Some? ==> Holds(pc).value < n && s.locks[Holds(pc).value] == Some(t))
    && (Wants(pc).Some? ==> Wants(pc).value <= n)
    && (pc.CasUp? ==> pc.seen < n)
    && (pc.ScanMiss? ==> s.slots[pc.i].intents != {})
    && (pc.FreeClear? || pc.LoadDown? || pc.CasDown? ==> s.slots[pc.i].intents == {})
    && (pc.Leave? ==> Owns(s.slots[pc.i], s.threads[t].intentId, s.threads[t].collectionId))
  }

  ghost predicate SlotOk(s: State, i: nat)
    requires i < |s.slots| && |s.locks| == |s.slots|
  {
    && (s.locks[i].Some? ==> s.locks[i].value < |s.threads| && Holds(s.threads[s.locks[i].value].pc) == Some(i))
    && (s.slots[i].collectionId == "" ==> s.slots[i].intents == {})
    && (s.slots[i].collectionId != "" && s.slots[i].intents == {} ==>
          s.locks[i].Some? && s.threads[s.locks[i].value].pc == FreeClear(i))
  }

  /** The counter accounts for occupied slots, reserved threads and pending decrements. */
  ghost predicate Accounted(s: State) {
    s.allocCounter + FreeFrom(s.slots, 0)
      == |s.slots| + ReservedFrom(s.threads, 0) + PendingDecrements(s.threads)
  }

  /** From every position on, there are enough free slots for the threads that scan from there. */
  ghost predicate EnoughAhead(s: State) {
    forall p: nat :: p <= |s.slots| ==> FreeFrom(s.slots, p) >= ReservedFrom(s.threads, p)
  }

  ghost predicate LocalOk(s: State) {
    && |s.locks| == |s.slots|
    && (forall t: nat :: t < |s.threads| ==> ThreadOk(s, t))
    && (forall i: nat :: i < |s.slots| ==> SlotOk(s, i))
    && (forall t: nat :: t < |s.threads| ==> s.threads[t].pc != Panicked)
  }

  ghost predicate Inv(s: State) {
    LocalOk(s) && Accounted(s) && EnoughAhead(s) && s.allocCounter <= |s.slots|
  }

  lemma NoPanicAhead(s: State, t: nat)
    requires Inv(s) && Enabled(s, t)
    ensures StepThread(s, t).threads[t].pc != Panicked
  {
    assert ThreadOk(s, t);
    if s.threads[t].pc == Scan(|s.slots|) {
      ReservedAtLeastOne(s.threads, t, |s.slots|);
      assert FreeFrom(s.slots, |s.slots|) == 0;
    }
  }

  /** A step touches no slot and no mutex but the one its thread holds or takes. */
  lemma StepIsLocal(s: State, t: nat, i: nat)
    requires LocalOk(s) && Enabled(s, t) && i < |s.slots|
    requires Holds(s.threads[t].pc) != Some(i) && Wants(s.threads[t].pc) != Some(i)
    ensures var s' := StepThread(s, t);
      |s'.slots| == |s'.locks| == |s.slots| && s'.slots[i] == s.slots[i] && s'.locks[i] == s.locks[i]
  {
  }

  lemma StepKeepsOtherThread(s: State, t: nat, u: nat)
    requires LocalOk(s) && Enabled(s, t) && u < |s.threads| && u != t
    ensures var s' := StepThread(s, t); |s'.threads| == |s.threads| && |s'.locks| == |s'.slots| && ThreadOk(s', u)
  {
    assert ThreadOk(s, t) && ThreadOk(s, u);
    var pc := s.threads[u].pc;
    if Holds(pc).Some? {
      StepIsLocal(s, t, Holds(pc).value);
    }
  }

  lemma StepKeepsOwnThread(s: State, t: nat)
    requires LocalOk(s) && Enabled(s, t)
    ensures var s' := StepThread(s, t); |s'.threads| == |s.threads| && |s'.locks| == |s'.slots| && ThreadOk(s', t)
  {
    assert ThreadOk(s, t);
    if Holds(s.threads[t].pc).Some? {
      assert SlotOk(s, Holds(s.threads[t].pc).value);
    }
  }

  lemma StepKeepsSlot(s: State, t: nat, i: nat)
    requires LocalOk(s) && Enabled(s, t) && i < |s.slots|
    ensures var s' := StepThread(s, t); |s'.locks| == |s'.slots| == |s.slots| && SlotOk(s', i)
  {
    assert ThreadOk(s, t) && SlotOk(s, i);
    if Holds(s.threads[t].pc) != Some(i) && Wants(s.threads[t].pc) != Some(i) {
      StepIsLocal(s, t, i);
    }
  }

  lemma StepKeepsLocal(s: State, t: nat)
    requires Inv(s) && Enabled(s, t)
    ensures LocalOk(StepThread(s, t))
  {
    NoPanicAhead(s, t);
    var s' := StepThread(s, t);
    StepKeepsOwnThread(s, t);
    forall u: nat | u < |s'.threads| ensures ThreadOk(s', u) && s'.threads[u].pc != Panicked {
      if u != t {
        StepKeepsOtherThread(s, t, u);
      }
    }
    forall i: nat | i < |s'.slots| ensures SlotOk(s', i) {
      StepKeepsSlot(s, t, i);
    }
  }

  /** How one step changes the counts. */
  lemma CountsAfter(s: State, t: nat, p: nat)
    requires LocalOk(s) && Enabled(s, t)
    ensures var s' := StepThread(s, t);
      && |s'.slots| == |s.slots| && |s'.threads| == |s.threads|
      && ReservedFrom(s'.threads, p)
           == ReservedFrom(s.threads, p) - AtOrAfter(s.threads[t].pc, p) + AtOrAfter(s'.threads[t].pc, p)
      && PendingDecrements(s'.threads)
           == PendingDecrements(s.threads) - Owing(s.threads[t].pc) + Owing(s'.threads[t].pc)
      && match Holds(s.threads[t].pc) {
           case None => s'.slots == s.slots
           case Some(i) => i < |s.slots| &&
             FreeFrom(s'.slots, p) == if i < p then FreeFrom(s.slots, p)
               else FreeFrom(s.slots, p) - (if s.slots[i].intents == {} then 1 else 0)
                                         + (if s'.slots[i].intents == {} then 1 else 0)
         }
  {
    var s' := StepThread(s, t);
    assert ThreadOk(s, t);
    PendingUpdate(s.threads, t, s'.threads[t]);
    ReservedUpdate(s.threads, t, s'.threads[t], p);
    assert s'.threads == s.threads[t := s'.threads[t]];
    if Holds(s.threads[t].pc).Some? {
      var i := Holds(s.threads[t].pc).value;
      FreeFromUpdate(s.slots, i, s'.slots[i], p);
      assert s'.slots == s.slots[i := s'.slots[i]];
    }
  }

  /** The right-hand side of the account moves with the counter in every kind of step. */
  lemma AccountStep(s: State, t: nat)
    requires |s.locks| == |s.slots| && Enabled(s, t) && ThreadOk(s, t)
    requires Holds(s.threads[t].pc).Some? ==> SlotOk(s, Holds(s.threads[t].pc).value)
    requires StepThread(s, t).threads[t].pc != Panicked
    ensures var s' := StepThread(s, t);
      var pc := s.threads[t].pc;
      var pc' := s'.threads[t].pc;
      && |s'.slots| == |s.slots|
      && s'.allocCounter - s.allocCounter
           == AtOrAfter(pc', 0) - AtOrAfter(pc, 0) + Owing(pc') - Owing(pc)
              + (match Holds(pc)
                 case None => 0
                 case Some(i) =>
                   ((if s.slots[i].intents == {} then 1 else 0) - (if s'.slots[i].intents == {} then 1 else 0)))
  {
  }

  lemma StepKeepsAccount(s: State, t: nat)
    requires Inv(s) && Enabled(s, t)
    ensures Accounted(StepThread(s, t)) && StepThread(s, t).allocCounter <= |s.slots|
  {
    assert ThreadOk(s, t);
    if Holds(s.threads[t].pc).Some? {
      assert SlotOk(s, Holds(s.threads[t].pc).value);
    }
    NoPanicAhead(s, t);
    AccountStep(s, t);
    CountsAfter(s, t, 0);
  }

  lemma StepKeepsEnough(s: State, t: nat)
    requires Inv(s) && Enabled(s, t)
    ensures EnoughAhead(StepThread(s, t))
  {
    var s' := StepThread(s, t);
    var pc := s.threads[t].pc;
    assert ThreadOk(s, t);
    if Holds(pc).Some? {
      assert SlotOk(s, Holds(pc).value);
    }
    forall p: nat | p <= |s'.slots| ensures FreeFrom(s'.slots, p) >= ReservedFrom(s'.threads, p) {
      EnoughFrom(s, t, p);
    }
  }

  function FreeAt(slots: seq<Slot>, i: nat): int
    requires i < |slots|
  {
    if slots[i].intents == {} then 1 else 0
  }

  /** A step that scans further, or takes a slot, uses up no more free slots than it stands for, except
      when a thread reserves and when it moves past a slot that it saw occupied. */
  lemma MoveIsCovered(s: State, t: nat, p: nat)
    requires |s.locks| == |s.slots| && Enabled(s, t) && ThreadOk(s, t)
    requires Holds(s.threads[t].pc).Some? ==> SlotOk(s, Holds(s.threads[t].pc).value)
    ensures var s' := StepThread(s, t);
      var pc := s.threads[t].pc;
      && |s'.slots| == |s.slots| && |s'.threads| == |s.threads|
      && var used := match Holds(pc)
           case None => 0
           case Some(i) => if i < p then 0 else FreeAt(s.slots, i) - FreeAt(s'.slots, i);
         (AtOrAfter(s'.threads[t].pc, p) + used <= AtOrAfter(pc, p)
          || (pc.ScanMiss? && p == pc.i + 1 && used == 0 && s'.threads[t].pc == Scan(p))
          || (pc.CasUp? && p == 0 && s'.threads[t].pc == Scan(0) && s.allocCounter < |s.slots|))
  {
  }

  lemma EnoughFrom(s: State, t: nat, p: nat)
    requires LocalOk(s) && EnoughAhead(s) && Accounted(s) && Enabled(s, t) && p <= |s.slots|
    requires ThreadOk(s, t) && (Holds(s.threads[t].pc).Some? ==> SlotOk(s, Holds(s.threads[t].pc).value))
    ensures FreeFrom(StepThread(s, t).slots, p) >= ReservedFrom(StepThread(s, t).threads, p)
  {
    var pc := s.threads[t].pc;
    CountsAfter(s, t, p);
    MoveIsCovered(s, t, p);
    assert FreeFrom(s.slots, p) >= ReservedFrom(s.threads, p);
    if pc.ScanMiss? && p == pc.i + 1 {
      // slot pc.i is occupied, so the free slots from pc.i on all lie beyond it
      assert FreeFrom(s.slots, pc.i) == FreeFrom(s.slots, p);
      ReservedSplit(s.threads, t, pc.i);
    }
  }

  /** A thread at `p` itself is counted from `p` on but not from `p + 1` on. */
  lemma {:induction false} ReservedSplit(threads: seq<Thread>, t: nat, p: nat)
    requires t < |threads| && Position(threads[t].pc) == Some(p)
    ensures ReservedFrom(threads, p) >= ReservedFrom(threads, p + 1) + 1
  {
    if t > 0 {
      ReservedSplit(threads[1..], t - 1, p);
    } else {
      ReservedMonotone(threads[1..], p);
    }
  }

  lemma {:induction false} ReservedMonotone(threads: seq<Thread>, p: nat)
    ensures ReservedFrom(threads, p) >= ReservedFrom(threads, p + 1)
  {
    if threads == [] {
    } else {
      ReservedMonotone(threads[1..], p);
    }
  }

  lemma ArrivalKeepsInv(s: State, th: Thread)
    requires Inv(s) && (th.pc == Search(0) || th.pc == FreeSeek(0)) && th.collectionId != ""
    ensures Inv(s.(threads := s.threads + [th]))
  {
    var s' := s.(threads := s.threads + [th]);
    forall p: nat | p <= |s.slots| ensures ReservedFrom(s'.threads, p) == ReservedFrom(s.threads, p) {
      CountersAppend(s.threads, th, p);
    }
    CountersAppend(s.threads, th, 0);
    forall u: nat | u < |s'.threads| ensures ThreadOk(s', u) {
      assert u < |s.threads| ==> ThreadOk(s, u);
    }
    forall i: nat | i < |s'.slots| ensures SlotOk(s', i) {
      assert SlotOk(s, i);
    }
  }

  lemma StepKeepsInv(s: State, s': State)
    requires Inv(s) && Step(s, s')
    ensures Inv(s')
  {
    if t :| Enabled(s, t) && s' == StepThread(s, t) {
      StepKeepsLocal(s, t);
      StepKeepsAccount(s, t);
      StepKeepsEnough(s, t);
    } else {
      var th: Thread :| (th.pc == Search(0) || th.pc == FreeSeek(0)) && th.collectionId != ""
                        && s' == s.(threads := s.threads + [th]);
      ArrivalKeepsInv(s, th);
    }
  }

  lemma InitialInv(s: State)
    requires Initial(s)
    ensures Inv(s)
  {
    AllSlotsFree(s.slots, 0);
  }

  lemma {:induction false} RunKeepsInv(run: seq<State>, k: nat)
    requires IsRun(run) && k < |run|
    ensures Inv(run[k])
  {
    if k == 0 {
      InitialInv(run[0]);
    } else {
      RunKeepsInv(run, k - 1);
      StepKeepsInv(run[k - 1], run[k]);
    }
  }

  // ---- The theorems ----

  /** In every run the final panic is unreachable: the counter stays within the pool, and a reserved
      thread always has a free slot where it looks or further on. */
  lemma ReservedThreadFindsSlot(run: seq<State>, k: nat)
    requires IsRun(run) && k < |run|
    ensures forall t :: 0 <= t < |run[k].threads| ==> run[k].threads[t].pc != Panicked
    ensures 0 <= run[k].allocCounter <= |run[k].slots|
    ensures forall t :: 0 <= t < |run[k].threads| && Position(run[k].threads[t].pc).Some? ==>
      exists j :: Position(run[k].threads[t].pc).value <= j < |run[k].slots| && run[k].slots[j].intents == {}
  {
    RunKeepsInv(run, k);
    var s := run[k];
    FreeBound(s.slots, 0);
    forall t | 0 <= t < |s.threads| && Position(s.threads[t].pc).Some?
      ensures exists j :: Position(s.threads[t].pc).value <= j < |s.slots| && s.slots[j].intents == {}
    {
      var p := Position(s.threads[t].pc).value;
      assert ThreadOk(s, t);
      ReservedAtLeastOne(s.threads, t, p);
      FreeWitness(s.slots, p);
    }
  }

  lemma {:induction false} FreeBound(slots: seq<Slot>, p: nat)
    requires p <= |slots|
    ensures FreeFrom(slots, p) <= |slots| - p
    decreases |slots| - p
  {
    if p >= |slots| {
    } else {
      FreeBound(slots, p + 1);
    }
  }

  lemma {:induction false} FreeWitness(slots: seq<Slot>, p: nat)
    requires FreeFrom(slots, p) > 0
    ensures exists j :: p <= j < |slots| && slots[j].intents == {}
    decreases |slots| - p
  {
    if slots[p].intents == {} {
    } else {
      FreeWitness(slots, p + 1);
    }
  }

  /** What a call returns: just before it unlocks slot `i` and returns `i`, that slot holds the
      caller's collection id and lists the caller's intent. */
  lemma ReturnedSlotIsOwned(run: seq<State>, k: nat, t: nat)
    requires IsRun(run) && k < |run| && t < |run[k].threads| && run[k].threads[t].pc.Leave?
    ensures var th := run[k].threads[t];
      th.pc.i < |run[k].slots| && Owns(run[k].slots[th.pc.i], th.intentId, th.collectionId)
  {
    RunKeepsInv(run, k);
    assert ThreadOk(run[k], t);
  }

  /** An owned slot stays owned under every step of every thread, except the one step in which a
      Free of exactly this intent and collection id gives it up. */
  lemma OwnershipIsStable(s: State, s': State, i: nat, intentId: string, collectionId: string)
    requires Inv(s) && Step(s, s') && i < |s.slots| && Owns(s.slots[i], intentId, collectionId)
    requires forall t :: 0 <= t < |s.threads| && s.threads[t].pc == FreeHeld(i) ==>
      (s.threads[t].intentId, s.threads[t].collectionId) != (intentId, collectionId)
    ensures i < |s'.slots| && Owns(s'.slots[i], intentId, collectionId)
  {
    if t :| Enabled(s, t) && s' == StepThread(s, t) {
      assert ThreadOk(s, t);
    }
  }

  /** No deadlock: while some call is unfinished, some thread can move. */
  lemma SomeThreadCanMove(run: seq<State>, k: nat, t: nat)
    requires IsRun(run) && k < |run| && t < |run[k].threads| && !Finished(run[k].threads[t].pc)
    ensures exists u :: Enabled(run[k], u)
  {
    RunKeepsInv(run, k);
    var s := run[k];
    assert ThreadOk(s, t);
    var wanted := Wants(s.threads[t].pc);
    if wanted.Some? && wanted.value < |s.slots| && s.locks[wanted.value].Some? {
      assert SlotOk(s, wanted.value);
      var u := s.locks[wanted.value].value;
      assert ThreadOk(s, u);
      assert Enabled(s, u);
    } else {
      assert Enabled(s, t);
    }
  }
}
