/** The changelog object: a list of actions and the index of the last one applied. */
module ChangeLogs {
  import opened Tables
  import opened StateCounters

  class ChangeLog {
    var actions: seq<Action>
    var doneCounter: int

    ghost predicate Valid() reads this { -1 <= doneCounter < |actions| }

    constructor ()
      ensures actions == [] && doneCounter == -1
    {
      actions := [];
      doneCounter := -1;
    }

    /** Only changelogs that were not committed can be merged. */
    method ExtendFrom(other: ChangeLog)
      requires doneCounter == -1 && other.doneCounter == -1
      modifies this`actions
      ensures actions == old(actions) + old(other.actions)
    {
      actions := actions + other.actions;
    }

    method AddAction(action: Action)
      modifies this`actions
      ensures actions == old(actions) + [action]
    {
      actions := actions + [action];
    }

    /** Apply the actions in order and stop at the first that fails. */
    method Commit(counter: StateCounter, switches: Switches) returns (ok: bool, ghost deviceOk: seq<bool>)
      requires doneCounter == -1
      modifies this`doneCounter, counter, switches
      ensures Valid() && |deviceOk| == |actions|
      ensures (counter.Store(switches), doneCounter + 1)
           == Tables.Commit(old(counter.Store(switches)), actions, deviceOk)
      ensures ok <==> doneCounter == |actions| - 1
      ensures switches.asked >= old(switches.asked)
      ensures false in deviceOk ==> Refusal(switches.answer, old(switches.asked), switches.asked)
    {
      ghost var s0 := counter.Store(switches);
      deviceOk := [];
      for i := 0 to |actions|
        invariant doneCounter == i - 1 && |deviceOk| == i
        invariant Tables.Commit(s0, actions[..i], deviceOk) == (counter.Store(switches), i)
        invariant switches.asked >= old(switches.asked)
        invariant false in deviceOk ==> Refusal(switches.answer, old(switches.asked), switches.asked)
      {
        ghost var s := counter.Store(switches);
        ghost var answer: bool;
        ok, answer := ApplyChange(counter, switches, actions[i]);
        assert actions[..i + 1] == actions[..i] + [actions[i]];
        CommitAppend(s0, actions[..i], deviceOk, actions[i], answer);
        deviceOk := deviceOk + [answer];
        if !ok {
          deviceOk := Padded(s0, actions, i + 1, deviceOk);
          return;
        }
        doneCounter := doneCounter + 1;
      }
      assert actions[..|actions|] == actions;
      ok := true;
    }

    /** Undo what was done, last action first, and report the actions that could not be undone. */
    method Rollback(counter: StateCounter, switches: Switches)
      returns (undoFailedActions: seq<Action>, ghost deviceOk: seq<bool>)
      requires Valid()
      modifies this`doneCounter, counter, switches
      ensures doneCounter == -1 && |deviceOk| == old(doneCounter) + 1
      ensures (counter.Store(switches), undoFailedActions)
           == Tables.Rollback(old(counter.Store(switches)), actions[..old(doneCounter) + 1], deviceOk)
      ensures switches.asked >= old(switches.asked)
      ensures false in deviceOk ==> Refusal(switches.answer, old(switches.asked), switches.asked)
    {
      undoFailedActions := [];
      deviceOk := [];
      var i := doneCounter;
      ghost var s0, n := counter.Store(switches), doneCounter + 1;
      while i >= 0
        invariant -1 <= i < n && doneCounter == i && |deviceOk| == n - 1 - i
        invariant Tables.Rollback(s0, actions[i + 1..n], deviceOk) == (counter.Store(switches), undoFailedActions)
        invariant switches.asked >= old(switches.asked)
        invariant false in deviceOk ==> Refusal(switches.answer, old(switches.asked), switches.asked)
      {
        ghost var s := counter.Store(switches);
        ghost var answer: bool;
        var ok: bool;
        ok, answer := ApplyChange(counter, switches, actions[i].Reverse());
        assert actions[i..n] == [actions[i]] + actions[i + 1..n];
        RollbackHeadLast(s0, actions[i..n], [answer] + deviceOk);
        if !ok {
          undoFailedActions := undoFailedActions + [actions[i]];
        }
        assert undoFailedActions + [] == undoFailedActions;
        deviceOk := [answer] + deviceOk;
        doneCounter := doneCounter - 1;
        i := i - 1;
      }
      assert actions[0..n] == actions[..n];
    }
  }

  lemma {:induction false} CommitAppend(s: Store, log: seq<Action>, deviceOk: seq<bool>, a: Action, answer: bool)
    requires |log| == |deviceOk| && Commit(s, log, deviceOk).1 == |log|
    ensures var (s', ok) := Apply(Commit(s, log, deviceOk).0, a, answer);
      Commit(s, log + [a], deviceOk + [answer]) == (s', if ok then |log| + 1 else |log|)
    decreases |log|
  {
    var log', deviceOk' := log + [a], deviceOk + [answer];
    if log == [] {
      assert log'[1..] == [] && deviceOk'[1..] == [];
      var s' := Apply(s, a, answer).0;
      assert Commit(s', log'[1..], deviceOk'[1..]) == (s', 0);
    } else {
      CommitAppend(Apply(s, log[0], deviceOk[0]).0, log[1..], deviceOk[1..], a, answer);
      assert log'[1..] == log[1..] + [a] && deviceOk'[1..] == deviceOk[1..] + [answer];
    }
  }

  lemma {:induction false} CommitStops(s: Store, log: seq<Action>, deviceOk: seq<bool>, more: seq<Action>,
                                       moreOk: seq<bool>)
    requires |log| == |deviceOk| && |more| == |moreOk| && Commit(s, log, deviceOk).1 < |log|
    ensures Commit(s, log + more, deviceOk + moreOk) == Commit(s, log, deviceOk)
    decreases |log|
  {
    var (s', ok) := Apply(s, log[0], deviceOk[0]);
    if ok {
      CommitStops(s', log[1..], deviceOk[1..], more, moreOk);
      assert (log + more)[1..] == log[1..] + more && (deviceOk + moreOk)[1..] == deviceOk[1..] + moreOk;
    }
  }

  /** The answers that a commit got before it stopped, with any answers for the actions it did not reach. */
  lemma Padded(s: Store, log: seq<Action>, n: nat, deviceOk: seq<bool>) returns (padded: seq<bool>)
    requires n <= |log| && |deviceOk| == n && Commit(s, log[..n], deviceOk).1 < n
    ensures |padded| == |log| && Commit(s, log, padded) == Commit(s, log[..n], deviceOk)
    ensures false in padded <==> false in deviceOk
  {
    var more := seq(|log| - n, _ => true);
    CommitStops(s, log[..n], deviceOk, log[n..], more);
    assert log == log[..n] + log[n..];
    padded := deviceOk + more;
  }

  /** Commit, and on failure roll back. The answers of the switches, to the actions and to the undos, are
      returned for the specification: the commit succeeds exactly if with them every action of the log is
      done. The counters end at their start plus the net of the actions reported as not undone, which are
      actions of the log, or plus the net of the whole log. */
  method CommitOrRollback(changelog: ChangeLog, counter: StateCounter, switches: Switches)
    returns (ok: bool, undoFailedActions: seq<Action>, ghost deviceOk: seq<bool>, ghost undoOk: seq<bool>)
    requires changelog.doneCounter == -1 && Consistent(counter.Store(switches))
    modifies changelog`doneCounter, counter, switches
    ensures Consistent(counter.Store(switches))
    ensures |deviceOk| == |changelog.actions|
    ensures ok <==> Tables.Commit(old(counter.Store(switches)), changelog.actions, deviceOk).1 == |changelog.actions|
    ensures Ran(old(counter.Store(switches)), changelog.actions, deviceOk, undoOk,
                ok, counter.Store(switches), undoFailedActions)
    ensures forall ref ::
      Count(counter.Store(switches), ref)
        == Count(old(counter.Store(switches)), ref) + Net(if ok then changelog.actions else undoFailedActions, ref)
    ensures ok ==> undoFailedActions == []
    ensures multiset(undoFailedActions) <= multiset(changelog.actions)
    ensures switches.asked >= old(switches.asked)
    ensures false in deviceOk || false in undoOk ==>
      Refusal(switches.answer, old(switches.asked), switches.asked)
  {
    ghost var s0, log := counter.Store(switches), changelog.actions;
    ok, deviceOk := changelog.Commit(counter, switches);
    undoFailedActions, undoOk := [], [];
    if !ok {
      undoFailedActions, undoOk := changelog.Rollback(counter, switches);
    }
    RanCounts(s0, log, deviceOk, undoOk, ok, counter.Store(switches), undoFailedActions);
  }
}
