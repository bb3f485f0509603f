/** The collection id pool: an array of slots, each with an id and the intents that use it, and a counter. */
module CollectionIds {
  // The functions say what one undisturbed call does; the class below performs it in place.
  // PoolInterleaving.dfy takes the calls apart into lock, CAS and slot steps.

  import opened Wrappers

  datatype Slot = Slot(collectionId: string, intents: set<string>)

  datatype AllocResult = Allocated(index: nat) | Exhausted | Panic

  datatype PoolState = PoolState(slots: seq<Slot>, allocCounter: int)

  predicate Owns(slot: Slot, intentId: string, collectionId: string) {
    intentId in slot.intents && slot.collectionId == collectionId
  }

  function FirstWithId(slots: seq<Slot>, collectionId: string): (k: nat)
    ensures k <= |slots|
    ensures k < |slots| ==> slots[k].collectionId == collectionId
    ensures forall j :: 0 <= j < k ==> slots[j].collectionId != collectionId
  {
    if slots == [] || slots[0].collectionId == collectionId then 0
    else 1 + FirstWithId(slots[1..], collectionId)
  }

  function FirstFree(slots: seq<Slot>): (k: nat)
    ensures k <= |slots|
    ensures k < |slots| ==> slots[k].intents == {}
    ensures forall j :: 0 <= j < k ==> slots[j].intents != {}
  {
    if slots == [] || slots[0].intents == {} then 0 else 1 + FirstFree(slots[1..])
  }

  function FirstOwned(slots: seq<Slot>, intentId: string, collectionId: string): (k: nat)
    ensures k <= |slots|
    ensures k < |slots| ==> Owns(slots[k], intentId, collectionId)
    ensures forall j :: 0 <= j < k ==> !Owns(slots[j], intentId, collectionId)
  {
    if slots == [] || Owns(slots[0], intentId, collectionId) then 0
    else 1 + FirstOwned(slots[1..], intentId, collectionId)
  }

  function AfterAlloc(s: PoolState, intentId: string, collectionId: string): (PoolState, AllocResult) {
    var k := FirstWithId(s.slots, collectionId);
    if k < |s.slots| then
      (s.(slots := s.slots[k := s.slots[k].(intents := s.slots[k].intents + {intentId})]), Allocated(k))
    else if s.allocCounter >= |s.slots| then (s, Exhausted)
    else
      var f := FirstFree(s.slots);
      if f < |s.slots| then
        (PoolState(s.slots[f := Slot(collectionId, {intentId})], s.allocCounter + 1), Allocated(f))
      else (s.(allocCounter := s.allocCounter + 1), Panic)
  }

  function AfterFree(s: PoolState, intentId: string, collectionId: string): PoolState {
    var k := FirstOwned(s.slots, intentId, collectionId);
    if k == |s.slots| then s
    else
      var left := s.slots[k].intents - {intentId};
      if left == {} then PoolState(s.slots[k := Slot("", {})], s.allocCounter - 1)
      else s.(slots := s.slots[k := s.slots[k].(intents := left)])
  }

  function Occupied(slots: seq<Slot>): nat {
    if slots == [] then 0 else (if slots[0].intents == {} then 0 else 1) + Occupied(slots[1..])
  }

  /** What every undisturbed call keeps: the counter counts the occupied slots, a slot is free
      exactly when it has no id, and no id sits in two slots. */
  ghost predicate Consistent(s: PoolState) {
    && s.allocCounter == Occupied(s.slots)
    && (forall i :: 0 <= i < |s.slots| ==> (s.slots[i].intents == {} <==> s.slots[i].collectionId == ""))
    && (forall i, j :: 0 <= i < j < |s.slots| && s.slots[i].collectionId != "" ==>
          s.slots[i].collectionId != s.slots[j].collectionId)
  }

  lemma {:induction false} OccupiedUpdate(slots: seq<Slot>, i: nat, x: Slot)
    requires i < |slots|
    ensures Occupied(slots[i := x])
         == Occupied(slots) - (if slots[i].intents == {} then 0 else 1) + (if x.intents == {} then 0 else 1)
  {
    if i == 0 {
      assert slots[i := x][1..] == slots[1..];
    } else {
      OccupiedUpdate(slots[1..], i - 1, x);
      assert slots[i := x][1..] == slots[1..][i - 1 := x];
    }
  }

  lemma {:induction false} FullPool(slots: seq<Slot>)
    ensures Occupied(slots) <= |slots|
    ensures Occupied(slots) == |slots| <==> FirstFree(slots) == |slots|
  {
    if slots == [] {
    } else {
      FullPool(slots[1..]);
      if slots[0].intents != {} {
        assert FirstFree(slots) == 1 + FirstFree(slots[1..]);
      }
    }
  }

  /** A sequential call never panics, is refused exactly when the id is new and every slot is
      occupied, and keeps the pool consistent. */
  lemma AllocKeepsConsistent(s: PoolState, intentId: string, collectionId: string)
    requires Consistent(s) && collectionId != ""
    ensures var (s', r) := AfterAlloc(s, intentId, collectionId);
      && Consistent(s')
      && r != Panic
      && (r == Exhausted <==>
            (forall j :: 0 <= j < |s.slots| ==> s.slots[j].intents != {} && s.slots[j].collectionId != collectionId))
      && (r.Allocated? ==> r.index < |s'.slots| && Owns(s'.slots[r.index], intentId, collectionId))
      && (r == Exhausted ==> s' == s)
  {
    FullPool(s.slots);
    var (s', r) := AfterAlloc(s, intentId, collectionId);
    if r.Allocated? {
      OccupiedUpdate(s.slots, r.index, s'.slots[r.index]);
    }
  }

  /** The empty id is the exception: it matches the free slots, so such a call takes a slot
      without reserving it. The pool stays consistent exactly when there is no free slot. */
  lemma EmptyIdBreaksPool(s: PoolState, intentId: string)
    requires Consistent(s)
    ensures Consistent(AfterAlloc(s, intentId, "").0) <==> FirstFree(s.slots) == |s.slots|
  {
    FullPool(s.slots);
    var k := FirstWithId(s.slots, "");
    if k < |s.slots| {
      OccupiedUpdate(s.slots, k, AfterAlloc(s, intentId, "").0.slots[k]);
    }
  }

  /** One slot is in use that the counter does not count. */
  ghost predicate Lagging(s: PoolState) {
    s.allocCounter + 1 == Occupied(s.slots)
  }

  /** The empty id brings this about exactly when it finds a free slot. */
  lemma EmptyIdLags(s: PoolState, intentId: string)
    requires Consistent(s)
    ensures Lagging(AfterAlloc(s, intentId, "").0) <==> Occupied(s.slots) < |s.slots|
    ensures Occupied(s.slots) < |s.slots| ==> Occupied(AfterAlloc(s, intentId, "").0.slots) == Occupied(s.slots) + 1
  {
    FullPool(s.slots);
    var k := FirstWithId(s.slots, "");
    if k < |s.slots| {
      OccupiedUpdate(s.slots, k, AfterAlloc(s, intentId, "").0.slots[k]);
    }
  }

  /** From then on a call for an absent id panics exactly when no slot is free; before that it takes one. */
  lemma LaggingCall(s: PoolState, intentId: string, collectionId: string)
    requires Lagging(s) && FirstWithId(s.slots, collectionId) == |s.slots|
    ensures var (s', r) := AfterAlloc(s, intentId, collectionId);
      && (r == Panic <==> Occupied(s.slots) == |s.slots|)
      && (r != Panic ==> r.Allocated? && Lagging(s') && Occupied(s'.slots) == Occupied(s.slots) + 1)
      && (r != Panic ==> forall id :: id != collectionId && FirstWithId(s.slots, id) == |s.slots| ==>
            FirstWithId(s'.slots, id) == |s'.slots|)
  {
    FullPool(s.slots);
    var (s', r) := AfterAlloc(s, intentId, collectionId);
    if r.Allocated? {
      OccupiedUpdate(s.slots, r.index, s'.slots[r.index]);
      forall id | id != collectionId && FirstWithId(s.slots, id) == |s.slots|
        ensures FirstWithId(s'.slots, id) == |s'.slots|
      {
        assert forall j :: 0 <= j < |s.slots| ==> s.slots[j].collectionId != id;
      }
    }
  }

  /** Calls of one intent each, one after the other; the answer is that of the last one. */
  function LastAnswer(s: PoolState, intentId: string, ids: seq<string>): AllocResult
    requires ids != []
    decreases |ids|
  {
    var (s', r) := AfterAlloc(s, intentId, ids[0]);
    if |ids| == 1 then r else LastAnswer(s', intentId, ids[1..])
  }

  lemma {:induction false} LaggingCallsPanic(s: PoolState, intentId: string, ids: seq<string>)
    requires Lagging(s) && |ids| == |s.slots| - Occupied(s.slots) + 1 && ids != []
    requires forall i :: 0 <= i < |ids| ==> FirstWithId(s.slots, ids[i]) == |s.slots|
    requires forall i, j :: 0 <= i < j < |ids| ==> ids[i] != ids[j]
    ensures LastAnswer(s, intentId, ids) == Panic
    decreases |ids|
  {
    LaggingCall(s, intentId, ids[0]);
    if |ids| == 1 {
    } else {
      LaggingCallsPanic(AfterAlloc(s, intentId, ids[0]).0, intentId, ids[1..]);
    }
  }

  /** So the panic of the code is reachable with an empty id: with `n` free slots, one call for the empty id
      and then `n` calls for absent ids end in it. Without a free slot the empty id is refused. */
  lemma EmptyIdLeadsToPanic(s: PoolState, intentId: string, other: string, ids: seq<string>)
    requires Consistent(s) && |ids| == |s.slots| - Occupied(s.slots) > 0
    requires forall i :: 0 <= i < |ids| ==> ids[i] != "" && FirstWithId(s.slots, ids[i]) == |s.slots|
    requires forall i, j :: 0 <= i < j < |ids| ==> ids[i] != ids[j]
    ensures AfterAlloc(s, intentId, "").1.Allocated?
    ensures LastAnswer(AfterAlloc(s, intentId, "").0, other, ids) == Panic
  {
    FullPool(s.slots);
    EmptyIdLags(s, intentId);
    var s' := AfterAlloc(s, intentId, "").0;
    forall i | 0 <= i < |ids| ensures FirstWithId(s'.slots, ids[i]) == |s'.slots| {
      assert forall j :: 0 <= j < |s.slots| ==> s.slots[j].collectionId != ids[i];
    }
    LaggingCallsPanic(s', other, ids);
  }

  lemma FreeKeepsConsistent(s: PoolState, intentId: string, collectionId: string)
    requires Consistent(s)
    ensures Consistent(AfterFree(s, intentId, collectionId))
    ensures forall j :: 0 <= j < |s.slots| && collectionId != "" ==>
      !Owns(AfterFree(s, intentId, collectionId).slots[j], intentId, collectionId)
  {
    var k := FirstOwned(s.slots, intentId, collectionId);
    if k < |s.slots| {
      OccupiedUpdate(s.slots, k, AfterFree(s, intentId, collectionId).slots[k]);
    }
  }

  /** Freeing undoes a fresh allocation exactly, whether it opened a slot or joined one. */
  lemma FreeUndoesAlloc(s: PoolState, intentId: string, collectionId: string)
    requires Consistent(s) && collectionId != ""
    requires forall j :: 0 <= j < |s.slots| ==> !Owns(s.slots[j], intentId, collectionId)
    ensures var (s', r) := AfterAlloc(s, intentId, collectionId);
      r.Allocated? ==> AfterFree(s', intentId, collectionId) == s
  {
    AllocKeepsConsistent(s, intentId, collectionId);
    var (s', r) := AfterAlloc(s, intentId, collectionId);
    if r.Allocated? {
      assert FirstOwned(s'.slots, intentId, collectionId) == r.index;
      assert s'.slots[r.index := s.slots[r.index]] == s.slots;
      if s.slots[r.index].intents == {} {
        assert s'.slots[r.index].intents - {intentId} == {};
        assert s.slots[r.index] == Slot("", {});
      } else {
        assert s'.slots[r.index].intents - {intentId} == s.slots[r.index].intents;
      }
    }
  }

  // ---- Other intents in between ----

  datatype PoolCall =
    | AllocCall(intentId: string, collectionId: string)
    | FreeCall(intentId: string, collectionId: string)

  function AfterCalls(s: PoolState, calls: seq<PoolCall>): PoolState
    decreases |calls|
  {
    if calls == [] then s
    else
      var s' := if calls[0].AllocCall? then AfterAlloc(s, calls[0].intentId, calls[0].collectionId).0
                else AfterFree(s, calls[0].intentId, calls[0].collectionId);
      AfterCalls(s', calls[1..])
  }

  ghost predicate CallsOfOthers(calls: seq<PoolCall>, x: string) {
    forall i :: 0 <= i < |calls| ==> calls[i].intentId != x && calls[i].collectionId != ""
  }

  predicate UsedBy(s: PoolState, j: nat, y: string, collectionId: string) {
    j < |s.slots| && y in s.slots[j].intents && s.slots[j].collectionId == collectionId
  }

  /** A call of one intent does not move any other one. */
  lemma CallKeepsOthers(s: PoolState, x: string, id: string, y: string)
    requires Consistent(s) && id != "" && x != y
    ensures forall j, c :: UsedBy(AfterAlloc(s, x, id).0, j, y, c) <==> UsedBy(s, j, y, c)
    ensures forall j, c :: UsedBy(AfterFree(s, x, id), j, y, c) <==> UsedBy(s, j, y, c)
  {
  }

  lemma {:induction false} CallsKeepOthers(s: PoolState, calls: seq<PoolCall>, x: string)
    requires Consistent(s) && CallsOfOthers(calls, x)
    ensures Consistent(AfterCalls(s, calls))
    ensures forall j, c :: UsedBy(AfterCalls(s, calls), j, x, c) <==> UsedBy(s, j, x, c)
    decreases |calls|
  {
    if calls == [] {
    } else {
      var a := calls[0];
      CallKeepsOthers(s, a.intentId, a.collectionId, x);
      AllocKeepsConsistent(s, a.intentId, a.collectionId);
      FreeKeepsConsistent(s, a.intentId, a.collectionId);
      var s' := if a.AllocCall? then AfterAlloc(s, a.intentId, a.collectionId).0
                else AfterFree(s, a.intentId, a.collectionId);
      CallsKeepOthers(s', calls[1..], x);
    }
  }

  /** With any undisturbed calls of other intents in between, freeing takes the intent out of the pool
      completely and moves nobody else. */
  lemma InterleavedFreeLeavesNothing(s: PoolState, x: string, id: string, calls: seq<PoolCall>)
    requires Consistent(s) && id != "" && CallsOfOthers(calls, x)
    requires forall j, c :: !UsedBy(s, j, x, c)
    requires AfterAlloc(s, x, id).1.Allocated?
    ensures var before := AfterCalls(AfterAlloc(s, x, id).0, calls);
      var after := AfterFree(before, x, id);
      && Consistent(after)
      && (forall j, c :: !UsedBy(after, j, x, c))
      && (forall j, c, y :: y != x ==> (UsedBy(after, j, y, c) <==> UsedBy(before, j, y, c)))
  {
    var s1, k := AfterAlloc(s, x, id).0, AfterAlloc(s, x, id).1.index;
    AllocKeepsConsistent(s, x, id);
    forall j, c | UsedBy(s1, j, x, c) ensures j == k && c == id {
      assert j != k ==> UsedBy(s, j, x, c);
    }
    assert UsedBy(s1, k, x, id);
    CallsKeepOthers(s1, calls, x);
    var before := AfterCalls(s1, calls);
    assert UsedBy(before, k, x, id);
    FreeKeepsConsistent(before, x, id);
    var f := FirstOwned(before.slots, x, id);
    assert Owns(before.slots[k], x, id);
    assert UsedBy(before, f, x, id);
    forall j, c ensures !UsedBy(AfterFree(before, x, id), j, x, c) {
      assert UsedBy(AfterFree(before, x, id), j, x, c) ==> UsedBy(before, j, x, c);
    }
    forall j: nat, c, y | y != x ensures UsedBy(AfterFree(before, x, id), j, y, c) <==> UsedBy(before, j, y, c) {
      CallKeepsOthers(before, x, id, y);
    }
  }

  // ---- One id in two slots ----

  /** The slot that a call for the id finds is not the only one that the intent owns for the id. */
  predicate OwnsLater(slots: seq<Slot>, x: string, id: string) {
    exists j :: FirstWithId(slots, id) < j < |slots| && Owns(slots[j], x, id)
  }

  /** An intent that is configured, perhaps again, and then disabled stays in the pool exactly if it owned
      the id in a slot behind the first one that holds it, which takes an id in two slots: the call joins
      the first slot, and freeing takes the intent out of that one only. */
  lemma WhenIdLeaks(s: PoolState, x: string, id: string)
    ensures var after := AfterFree(AfterAlloc(s, x, id).0, x, id);
      (exists j :: 0 <= j < |after.slots| && Owns(after.slots[j], x, id)) <==> OwnsLater(s.slots, x, id)
  {
    var first := FirstWithId(s.slots, id);
    var s1 := AfterAlloc(s, x, id).0;
    var after := AfterFree(s1, x, id);
    if first < |s.slots| {
      assert Owns(s1.slots[first], x, id);
      assert FirstOwned(s1.slots, x, id) == first;
      assert !Owns(after.slots[first], x, id);
    }
    if j :| first < j < |s.slots| && Owns(s.slots[j], x, id) {
      assert Owns(after.slots[j], x, id);
    }
  }

  class CollectionIdPool {
    const maxSize: nat
    const pool: array<Slot>
    var allocCounter: int

    ghost predicate Valid() reads this { pool.Length == maxSize }

    ghost function State(): PoolState reads this, pool { PoolState(pool[..], allocCounter) }

    constructor (maxSize: nat)
      ensures Valid() && fresh(pool) && this.maxSize == maxSize
      ensures Consistent(State()) && forall i :: 0 <= i < maxSize ==> pool[i] == Slot("", {})
    {
      this.maxSize := maxSize;
      pool := new Slot[maxSize](_ => Slot("", {}));
      allocCounter := 0;
      new;
      AllFree(pool[..]);
    }

    method AllocOrGet(intentId: string, collectionId: string) returns (r: AllocResult)
      requires Valid()
      modifies this, pool
      ensures Valid()
      ensures (State(), r) == AfterAlloc(old(State()), intentId, collectionId)
    {
      ghost var s := State();
      var i := 0;
      while i < maxSize
        invariant 0 <= i <= maxSize && State() == s
        invariant forall j :: 0 <= j < i ==> pool[j].collectionId != collectionId
      {
        if pool[i].collectionId == collectionId {
          assert FirstWithId(s.slots, collectionId) == i;
          pool[i] := pool[i].(intents := pool[i].intents + {intentId});
          return Allocated(i);
        }
        i := i + 1;
      }
      assert FirstWithId(s.slots, collectionId) == maxSize;
      if allocCounter >= maxSize {
        return Exhausted;
      }
      allocCounter := allocCounter + 1;
      i := 0;
      while i < maxSize
        invariant 0 <= i <= maxSize && pool[..] == s.slots && allocCounter == s.allocCounter + 1
        invariant forall j :: 0 <= j < i ==> pool[j].intents != {}
      {
        if pool[i].intents == {} {
          assert FirstFree(s.slots) == i;
          pool[i] := Slot(collectionId, {intentId});
          return Allocated(i);
        }
        i := i + 1;
      }
      return Panic;
    }

    method GetIfAllocated(intentId: string, collectionId: string) returns (r: Option<nat>)
      requires Valid()
      ensures r == var k := FirstOwned(State().slots, intentId, collectionId); if k < maxSize then Some(k) else None
    {
      for i := 0 to maxSize
        invariant forall j :: 0 <= j < i ==> !Owns(pool[j], intentId, collectionId)
      {
        if Owns(pool[i], intentId, collectionId) {
          assert FirstOwned(pool[..], intentId, collectionId) == i;
          return Some(i);
        }
      }
      return None;
    }

    method GetIfAnyAllocated(collectionId: string) returns (r: Option<nat>)
      requires Valid()
      ensures r.None? ==> forall j :: 0 <= j < maxSize ==> pool[j].intents == {} || pool[j].collectionId != collectionId
      ensures r.Some? ==> r.value < maxSize && pool[r.value].intents != {} && pool[r.value].collectionId == collectionId
      ensures r.Some? ==> forall j :: 0 <= j < r.value ==> pool[j].intents == {} || pool[j].collectionId != collectionId
    {
      for i := 0 to maxSize
        invariant forall j :: 0 <= j < i ==> pool[j].intents == {} || pool[j].collectionId != collectionId
      {
        if pool[i].intents != {} && pool[i].collectionId == collectionId {
          return Some(i);
        }
      }
      return None;
    }

    method Free(intentId: string, collectionId: string)
      requires Valid()
      modifies this, pool
      ensures Valid()
      ensures State() == AfterFree(old(State()), intentId, collectionId)
    {
      ghost var s := State();
      for i := 0 to maxSize
        invariant State() == s
        invariant forall j :: 0 <= j < i ==> !Owns(pool[j], intentId, collectionId)
      {
        if Owns(pool[i], intentId, collectionId) {
          assert FirstOwned(s.slots, intentId, collectionId) == i;
          pool[i] := pool[i].(intents := pool[i].intents - {intentId});
          if pool[i].intents == {} {
            pool[i] := pool[i].(collectionId := "");
            allocCounter := allocCounter - 1;
          }
          assert pool[..] == s.slots[i := pool[i]];
          return;
        }
      }
      assert FirstOwned(s.slots, intentId, collectionId) == maxSize;
    }
  }

  lemma {:induction false} AllFree(slots: seq<Slot>)
    requires forall i :: 0 <= i < |slots| ==> slots[i].intents == {}
    ensures Occupied(slots) == 0
  {
    if slots == [] {
    } else {
      AllFree(slots[1..]);
    }
  }
}
