/** What the calls of the pool have done when they end. */
module PoolHistory {
  // A Free that took its intent out or saw that it is nowhere, an AllocOrGet that was refused.

  import opened Wrappers
  import opened CollectionIds
  import opened PoolInterleaving

  ghost predicate IsCall(s: State, t: nat, x: string, id: string) {
    t < |s.threads| && s.threads[t].intentId == x && s.threads[t].collectionId == id
  }

  /** At this moment the call holds slot `i`, and its intent does not have it with its id. */
  ghost predicate MissesAt(s: State, t: nat, i: nat, x: string, id: string) {
    IsCall(s, t, x, id) && s.threads[t].pc == FreeMiss(i) && i < |s.slots| && !Owns(s.slots[i], x, id)
  }

  /** In this step the call takes its intent, and no other, out of slot `i`, which it had with its id. */
  ghost predicate TakesOut(s: State, s': State, t: nat, i: nat, x: string, id: string) {
    && IsCall(s, t, x, id) && s.threads[t].pc == FreeHeld(i) && i < |s.slots| == |s'.slots|
    && Owns(s.slots[i], x, id) && x !in s'.slots[i].intents
    && (forall y :: y != x ==> (y in s'.slots[i].intents <==> y in s.slots[i].intents))
    && (forall l :: 0 <= l < |s.slots| && l != i ==> s'.slots[l] == s.slots[l])
  }

  /** Up to step `k` the call saw slot `i` without its intent. */
  ghost predicate Missed(run: seq<State>, k: nat, t: nat, i: nat, x: string, id: string)
    requires k < |run|
  {
    exists j: nat :: j <= k && MissesAt(run[j], t, i, x, id)
  }

  ghost predicate MissedUpTo(run: seq<State>, k: nat, t: nat, n: nat, x: string, id: string)
    requires k < |run|
  {
    forall i: nat {:trigger Missed(run, k, t, i, x, id)} :: i < n ==> Missed(run, k, t, i, x, id)
  }

  /** Before step `k` the call took its intent out of the first slot in which it found it. */
  ghost predicate TookOut(run: seq<State>, k: nat, t: nat, x: string, id: string)
    requires k < |run|
  {
    exists j: nat, i: nat :: j < k && TakesOut(run[j], run[j + 1], t, i, x, id) && MissedUpTo(run, j, t, i, x, id)
  }

  /** What a Free has done when it stands where it stands. */
  ghost predicate Done(run: seq<State>, k: nat, t: nat, x: string, id: string)
    requires k < |run| && t < |run[k].threads|
  {
    match run[k].threads[t].pc
    case FreeSeek(i) => MissedUpTo(run, k, t, i, x, id)
    case FreeHeld(i) => MissedUpTo(run, k, t, i, x, id)
    case FreeMiss(i) => MissedUpTo(run, k, t, i + 1, x, id)
    case FreeClear(_) => TookOut(run, k, t, x, id)
    case LoadDown(_) => TookOut(run, k, t, x, id)
    case CasDown(_, _) => TookOut(run, k, t, x, id)
    case FreeLeave(_) => TookOut(run, k, t, x, id)
    case Freed => TookOut(run, k, t, x, id) || MissedUpTo(run, k, t, |run[k].slots|, x, id)
    case _ => true
  }

  lemma MissedStays(run: seq<State>, k: nat, t: nat, n: nat, x: string, id: string)
    requires k + 1 < |run|
    ensures MissedUpTo(run, k, t, n, x, id) ==> MissedUpTo(run, k + 1, t, n, x, id)
    ensures TookOut(run, k, t, x, id) ==> TookOut(run, k + 1, t, x, id)
  {
    if MissedUpTo(run, k, t, n, x, id) {
      var m := k + 1;
      forall i: nat | i < n ensures Missed(run, m, t, i, x, id) {
        assert Missed(run, k, t, i, x, id);
      }
    }
  }

  /** What a step of a Free does to the slots, and where it goes. */
  lemma FreeStep(s: State, t: nat, x: string, id: string)
    requires Enabled(s, t) && IsCall(s, t, x, id)
    ensures var pc, s' := s.threads[t].pc, StepThread(s, t);
      && IsCall(s', t, x, id) && |s'.slots| == |s.slots|
      && (s'.threads[t].pc.FreeSeek? ==> pc.FreeMiss? && s'.threads[t].pc.i == pc.i + 1)
      && (s'.threads[t].pc.FreeHeld? ==> pc.FreeSeek? && s'.threads[t].pc.i == pc.i)
      && (s'.threads[t].pc.FreeMiss? ==>
            pc.FreeHeld? && pc.i == s'.threads[t].pc.i && MissesAt(s', t, pc.i, x, id))
  {
  }

  lemma FreeEnds(s: State, t: nat, x: string, id: string)
    requires Enabled(s, t) && IsCall(s, t, x, id)
    ensures var pc, pc' := s.threads[t].pc, StepThread(s, t).threads[t].pc;
      && (pc'.FreeClear? || pc'.LoadDown? || pc'.CasDown? || pc'.FreeLeave? ==>
            || pc.FreeClear? || pc.LoadDown? || pc.CasDown?
            || (pc.FreeHeld? && TakesOut(s, StepThread(s, t), t, pc.i, x, id)))
      && (pc'.Freed? ==> pc.FreeLeave? || (pc.FreeSeek? && pc.i >= |s.slots|))
  {
  }

  lemma OthersStand(s: State, u: nat, t: nat)
    requires Enabled(s, u) && t < |s.threads| && t != u
    ensures StepThread(s, u).threads[t] == s.threads[t] && |StepThread(s, u).slots| == |s.slots|
  {
  }

  lemma OwnStepKeepsDone(run: seq<State>, k: nat, t: nat, x: string, id: string)
    requires k + 1 < |run| && Enabled(run[k], t) && run[k + 1] == StepThread(run[k], t)
    requires IsCall(run[k], t, x, id) && Done(run, k, t, x, id)
    ensures t < |run[k + 1].threads| && Done(run, k + 1, t, x, id)
  {
    var pc := run[k].threads[t].pc;
    FreeStep(run[k], t, x, id);
    FreeEnds(run[k], t, x, id);
    if pc.FreeSeek? {
      MissedStays(run, k, t, pc.i, x, id);
    } else if pc.FreeHeld? {
      MissedStays(run, k, t, pc.i, x, id);
      if run[k + 1].threads[t].pc.FreeMiss? {
        assert Missed(run, k + 1, t, pc.i, x, id);
      }
    } else if pc.FreeMiss? {
      MissedStays(run, k, t, pc.i + 1, x, id);
    } else {
      MissedStays(run, k, t, 0, x, id);
    }
  }

  lemma StepKeepsDone(run: seq<State>, k: nat, t: nat, x: string, id: string)
    requires k + 1 < |run| && Step(run[k], run[k + 1]) && IsCall(run[k + 1], t, x, id)
    requires IsCall(run[k], t, x, id) ==> Done(run, k, t, x, id)
    ensures Done(run, k + 1, t, x, id)
  {
    if u :| Enabled(run[k], u) && run[k + 1] == StepThread(run[k], u) {
      if u == t {
        FreeStep(run[k], t, run[k].threads[t].intentId, run[k].threads[t].collectionId);
        OwnStepKeepsDone(run, k, t, x, id);
      } else {
        OthersStand(run[k], u, t);
        StandingKeepsDone(run, k, t, x, id);
      }
    } else if t < |run[k].threads| {
      StandingKeepsDone(run, k, t, x, id);
    } else {
      assert run[k + 1].threads[t].pc == Search(0) || run[k + 1].threads[t].pc == FreeSeek(0);
    }
  }

  lemma StandingKeepsDone(run: seq<State>, k: nat, t: nat, x: string, id: string)
    requires k + 1 < |run| && t < |run[k].threads| && t < |run[k + 1].threads|
    requires run[k + 1].threads[t] == run[k].threads[t] && |run[k + 1].slots| == |run[k].slots|
    requires Done(run, k, t, x, id)
    ensures Done(run, k + 1, t, x, id)
  {
    var pc := run[k].threads[t].pc;
    MissedStays(run, k, t, if pc.FreeSeek? || pc.FreeHeld? then pc.i else if pc.FreeMiss? then pc.i + 1
                           else |run[k].slots|, x, id);
  }

  ghost predicate StepsAt(run: seq<State>, k: nat) { k + 1 < |run| && Step(run[k], run[k + 1]) }

  lemma {:induction false} RunIsDone(run: seq<State>, k: nat, t: nat, x: string, id: string)
    requires k < |run| && run[0].threads == [] && IsCall(run[k], t, x, id)
    requires forall l {:trigger StepsAt(run, l)} :: 0 <= l < k ==> StepsAt(run, l)
    ensures Done(run, k, t, x, id)
  {
    if k == 0 {
    } else {
      assert StepsAt(run, k - 1);
      if IsCall(run[k - 1], t, x, id) {
        RunIsDone(run, k - 1, t, x, id);
      }
      StepKeepsDone(run, k - 1, t, x, id);
    }
  }

  /** A Free that has ended took its intent, and nothing else, out of the first slot that it saw with the
      intent and its id; or it held every slot once, and none of them was the intent's with that id. */
  lemma WhatFreeDid(run: seq<State>, k: nat, t: nat)
    requires IsRun(run) && k < |run| && t < |run[k].threads| && run[k].threads[t].pc == Freed
    ensures var th := run[k].threads[t];
      || TookOut(run, k, t, th.intentId, th.collectionId)
      || forall i: nat :: i < |run[k].slots| ==> Missed(run, k, t, i, th.intentId, th.collectionId)
  {
    var th := run[k].threads[t];
    forall l: nat | l < k ensures StepsAt(run, l) {
    }
    RunIsDone(run, k, t, th.intentId, th.collectionId);
  }

  /** A refused call has seen the counter at the size of the pool: at that moment every slot was taken by an
      intent, promised to a call that scans for it, or about to be given back. */
  lemma {:induction false} RefusedWhenFull(run: seq<State>, k: nat, t: nat) returns (j: nat)
    requires IsRun(run) && k < |run| && t < |run[k].threads| && run[k].threads[t].pc == Refused
    ensures j < k && t < |run[j].threads| && run[j].threads[t].pc == LoadUp
    ensures run[j].allocCounter == |run[j].slots|
    ensures FreeFrom(run[j].slots, 0) == ReservedFrom(run[j].threads, 0) + PendingDecrements(run[j].threads)
  {
    if k == 0 {
      assert false;
    } else {
      RunKeepsInv(run, k - 1);
      assert Step(run[k - 1], run[k - 1 + 1]);
      BeforeRefused(run[k - 1], run[k], t);
      if run[k - 1].threads[t].pc == Refused {
        j := RefusedWhenFull(run, k - 1, t);
      } else {
        j := k - 1;
      }
    }
  }

  lemma BeforeRefused(s: State, s': State, t: nat)
    requires Inv(s) && Step(s, s') && t < |s'.threads| && s'.threads[t].pc == Refused
    ensures t < |s.threads|
    ensures s.threads[t].pc != Refused ==>
      && s.threads[t].pc == LoadUp && s.allocCounter == |s.slots|
      && FreeFrom(s.slots, 0) == ReservedFrom(s.threads, 0) + PendingDecrements(s.threads)
  {
    if u :| Enabled(s, u) && s' == StepThread(s, u) {
      if u == t {
        OnlyLoadRefuses(s, t);
      } else {
        OthersStand(s, u, t);
      }
    }
  }

  lemma OnlyLoadRefuses(s: State, t: nat)
    requires Enabled(s, t) && StepThread(s, t).threads[t].pc == Refused
    ensures s.threads[t].pc == LoadUp && s.allocCounter >= |s.slots|
  {
  }
}
