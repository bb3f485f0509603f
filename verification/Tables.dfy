/** The reference-counted switch tables. */
module Tables {
  // What actions do to counters and switches, whatever the switches answer.

  import opened Topology

  type DeviceName = Name

  /** The match of a table entry; the constructor says which of the five tables it belongs to. */
  datatype Key =
    | TransitKey
    | SinkKey(egressPort: int)
    | ReportingKey(collectionId: int)
    | ActivateKey(ingressPort: int)
    | SourceKey(src: Pattern, dst: Pattern, srcPort: int, dstPort: int, tunneled: bool)

  datatype Table = TransitTable | SinkTable | ReportingTable | ActivateTable | SourceTable

  function TableOf(key: Key): Table {
    match key
    case TransitKey => TransitTable
    case SinkKey(_) => SinkTable
    case ReportingKey(_) => ReportingTable
    case ActivateKey(_) => ActivateTable
    case SourceKey(_, _, _, _, _) => SourceTable
  }

  /** A key on one device: the unit of reference counting. */
  datatype Ref = Ref(device: DeviceName, key: Key)

  /** What an entry makes the switch do on a match. */
  datatype Entry =
    | TransitEntry(switchId: int, mtu: int)
    | SinkEntry(reportingPort: int)
    | ReportingEntry(mac: string, ip: Address, collectorMac: string, collectorIp: Address, collectorPort: int)
    | ActivateEntry
    | SourceEntry(maxHop: int, hopMetadataLen: int, insCnt: int, insMask: int, collectionId: int)

  datatype Cell = Cell(counter: int, entry: Entry)

  /** One table on one device. */
  datatype Slot = Slot(table: Table, device: DeviceName)

  /** The counters of all tables, their per-device number of entries, and the entries that are
      really installed on the switches. */
  datatype Store = Store(cells: map<Ref, Cell>, numEntries: map<Slot, int>, installed: map<Ref, Entry>)

  datatype Action = Action(ref: Ref, entry: Entry, isCreate: bool) {
    function Delta(): int { if isCreate then 1 else -1 }

    function Reverse(): Action { Action(ref, entry, !isCreate) }
  }

  function SlotOf(ref: Ref): Slot { Slot(TableOf(ref.key), ref.device) }

  function NumEntries(s: Store, slot: Slot): int {
    if slot in s.numEntries then s.numEntries[slot] else 0
  }

  function Count(s: Store, ref: Ref): int {
    if ref in s.cells then s.cells[ref].counter else 0
  }

  /** One action. `deviceOk` is the answer of the switch, if the action asks it. The boolean result
      says whether the action succeeded. */
  function Apply(s: Store, a: Action, deviceOk: bool): (Store, bool) {
    var slot := SlotOf(a.ref);
    if a.isCreate then
      if a.ref !in s.cells then
        var s' := s.(numEntries := s.numEntries[slot := NumEntries(s, slot) + 1]);
        if deviceOk then
          (s'.(cells := s.cells[a.ref := Cell(1, a.entry)], installed := s.installed[a.ref := a.entry]), true)
        else (s', false)
      else
        var cell := s.cells[a.ref];
        if cell.counter == 0 && !deviceOk then (s, false)
        else
          var written := if cell.counter == 0 then s.installed[a.ref := a.entry] else s.installed;
          (s.(cells := s.cells[a.ref := cell.(counter := cell.counter + 1)], installed := written), true)
    else if a.ref !in s.cells then (s, false)
    else
      var cell := s.cells[a.ref];
      if cell.counter == 1 then
        if deviceOk then
          (Store(s.cells - {a.ref}, s.numEntries[slot := NumEntries(s, slot) - 1], s.installed - {a.ref}), true)
        else (s, false)
      else (s.(cells := s.cells[a.ref := cell.(counter := cell.counter - 1)]), true)
  }

  /** The counters and the switches agree: an entry is installed exactly while its count is positive. */
  ghost predicate Consistent(s: Store) {
    && s.installed.Keys == s.cells.Keys
    && forall ref :: ref in s.cells ==> s.cells[ref].counter >= 1 && s.installed[ref] == s.cells[ref].entry
  }

  /** What one action does to every count, and when it fails. */
  lemma ApplyEffect(s: Store, a: Action, deviceOk: bool, ref: Ref)
    requires Consistent(s)
    ensures var (s', ok) := Apply(s, a, deviceOk);
      && Consistent(s')
      && Count(s', ref) == Count(s, ref) + (if ok && ref == a.ref then a.Delta() else 0)
      && (!ok ==> s'.cells == s.cells && s'.installed == s.installed)
      && (ok <==> if a.isCreate then Count(s, a.ref) > 0 || deviceOk
                  else Count(s, a.ref) > 1 || (Count(s, a.ref) == 1 && deviceOk))
  {
    var (s', ok) := Apply(s, a, deviceOk);
    assert s'.installed.Keys == s'.cells.Keys;
  }

  // ---- Changelogs ----

  /** The sum of the deltas of the actions on `ref`. */
  function Net(log: seq<Action>, ref: Ref): int {
    if log == [] then 0 else (if log[0].ref == ref then log[0].Delta() else 0) + Net(log[1..], ref)
  }

  /** Apply the log in order up to the first failing action. The result holds the number of actions done. */
  function Commit(s: Store, log: seq<Action>, deviceOk: seq<bool>): (r: (Store, nat))
    requires |log| == |deviceOk|
    ensures r.1 <= |log|
    decreases |log|
  {
    if log == [] then (s, 0)
    else
      var (s', ok) := Apply(s, log[0], deviceOk[0]);
      if !ok then (s', 0)
      else
        var (s'', done) := Commit(s', log[1..], deviceOk[1..]);
        (s'', 1 + done)
  }

  /** Undo the whole log, last action first, skipping over actions whose undo fails. The result holds
      the actions that could not be undone. */
  function Rollback(s: Store, log: seq<Action>, deviceOk: seq<bool>): (Store, seq<Action>)
    requires |log| == |deviceOk|
    decreases |log|
  {
    if log == [] then (s, [])
    else
      var last := |log| - 1;
      var (s', ok) := Apply(s, log[last].Reverse(), deviceOk[last]);
      var (s'', failed) := Rollback(s', log[..last], deviceOk[..last]);
      (s'', (if ok then [] else [log[last]]) + failed)
  }

  lemma {:induction false} NetConcat(a: seq<Action>, b: seq<Action>, ref: Ref)
    ensures Net(a + b, ref) == Net(a, ref) + Net(b, ref)
  {
    if a == [] {
      assert a + b == b;
    } else {
      NetConcat(a[1..], b, ref);
      assert (a + b)[1..] == a[1..] + b;
    }
  }

  lemma {:induction false} CommitCounts(s: Store, log: seq<Action>, deviceOk: seq<bool>, ref: Ref)
    requires |log| == |deviceOk| && Consistent(s)
    ensures var (s', done) := Commit(s, log, deviceOk);
      Consistent(s') && Count(s', ref) == Count(s, ref) + Net(log[..done], ref)
    decreases |log|
  {
    if log == [] {
    } else {
      ApplyEffect(s, log[0], deviceOk[0], ref);
      var (s', ok) := Apply(s, log[0], deviceOk[0]);
      if ok {
        CommitCounts(s', log[1..], deviceOk[1..], ref);
        var done := Commit(s, log, deviceOk).1;
        assert log[..done][1..] == log[1..][..done - 1];
      }
    }
  }

  lemma {:induction false} RollbackCounts(s: Store, log: seq<Action>, deviceOk: seq<bool>, ref: Ref)
    requires |log| == |deviceOk| && Consistent(s)
    ensures var (s', failed) := Rollback(s, log, deviceOk);
      Consistent(s') && Count(s', ref) == Count(s, ref) - Net(log, ref) + Net(failed, ref)
    decreases |log|
  {
    if log == [] {
    } else {
      var last := |log| - 1;
      ApplyEffect(s, log[last].Reverse(), deviceOk[last], ref);
      var (s', ok) := Apply(s, log[last].Reverse(), deviceOk[last]);
      RollbackCounts(s', log[..last], deviceOk[..last], ref);
      var failed := Rollback(s', log[..last], deviceOk[..last]).1;
      NetConcat(log[..last], [log[last]], ref);
      assert log == log[..last] + [log[last]];
      NetConcat([log[last]], failed, ref);
      assert [] + failed == failed;
    }
  }

  /** Every report is about an action of the log, and about no occurrence twice. */
  lemma {:induction false} RollbackReportsActions(s: Store, log: seq<Action>, deviceOk: seq<bool>)
    requires |log| == |deviceOk|
    ensures multiset(Rollback(s, log, deviceOk).1) <= multiset(log)
    decreases |log|
  {
    if log == [] {
    } else {
      var last := |log| - 1;
      var s' := Apply(s, log[last].Reverse(), deviceOk[last]).0;
      RollbackReportsActions(s', log[..last], deviceOk[..last]);
      assert log == log[..last] + [log[last]];
    }
  }

  /** Rollback exactness: wherever the commit stopped, after rolling back the done actions every count
      is its start plus the net of exactly the actions reported as not undone. */
  lemma CommitThenRollback(s: Store, log: seq<Action>, deviceOk: seq<bool>, undoOk: seq<bool>, ref: Ref)
    requires |log| == |deviceOk| == |undoOk| && Consistent(s)
    ensures var (s1, done) := Commit(s, log, deviceOk);
      var (s2, failed) := Rollback(s1, log[..done], undoOk[..done]);
      && Consistent(s2)
      && Count(s2, ref) == Count(s, ref) + Net(failed, ref)
      && (failed == [] ==> (ref in s2.cells <==> ref in s.cells) && (ref in s2.installed <==> ref in s.installed))
  {
    var (s1, done) := Commit(s, log, deviceOk);
    CommitCounts(s, log, deviceOk, ref);
    RollbackCounts(s1, log[..done], undoOk[..done], ref);
  }

  // ---- A commit that is rolled back if it fails ----

  /** What becomes of `before` when the log is committed, with these answers of the switches, and undone as
      far as possible if the commit fails. */
  ghost predicate Ran(before: Store, log: seq<Action>, deviceOk: seq<bool>, undoOk: seq<bool>,
                      ok: bool, after: Store, undone: seq<Action>)
  {
    && |deviceOk| == |log|
    && var (s, done) := Commit(before, log, deviceOk);
    && (ok <==> done == |log|)
    && if ok then after == s && undone == []
       else |undoOk| == done && (after, undone) == Rollback(s, log[..done], undoOk)
  }

  /** In either case every count moved by the net of the log or of the undos that failed, and these were
      undos of actions of the log. */
  lemma RanCounts(before: Store, log: seq<Action>, deviceOk: seq<bool>, undoOk: seq<bool>,
                  ok: bool, after: Store, undone: seq<Action>)
    requires Consistent(before) && Ran(before, log, deviceOk, undoOk, ok, after, undone)
    ensures Consistent(after) && multiset(undone) <= multiset(log)
    ensures forall ref :: Count(after, ref) == Count(before, ref) + Net(if ok then log else undone, ref)
  {
    var (s, done) := Commit(before, log, deviceOk);
    assert log == log[..done] + log[done..];
    CommitCounts(before, log, deviceOk, Ref("", TransitKey));
    if ok {
      assert log[..done] == log;
      forall ref ensures Count(after, ref) == Count(before, ref) + Net(log, ref) {
        CommitCounts(before, log, deviceOk, ref);
      }
    } else {
      RollbackReportsActions(s, log[..done], undoOk);
      RollbackCounts(s, log[..done], undoOk, Ref("", TransitKey));
      forall ref ensures Count(after, ref) == Count(before, ref) + Net(undone, ref) {
        CommitCounts(before, log, deviceOk, ref);
        RollbackCounts(s, log[..done], undoOk, ref);
      }
    }
  }

  /** `x` is the entry of some create of the log. */
  predicate CreatedBy(log: seq<Action>, ref: Ref, x: Entry) {
    exists i :: 0 <= i < |log| && log[i].isCreate && log[i].ref == ref && log[i].entry == x
  }

  /** Every entry on a switch after a commit was there before, unchanged, or is the entry of a create. */
  lemma {:induction false} InstalledIsOldOrCreated(s: Store, log: seq<Action>, deviceOk: seq<bool>, ref: Ref)
    requires |log| == |deviceOk| && ref in Commit(s, log, deviceOk).0.installed
    ensures var x := Commit(s, log, deviceOk).0.installed[ref];
      (ref in s.installed && s.installed[ref] == x) || CreatedBy(log, ref, x)
    decreases |log|
  {
    if log == [] {
    } else {
      var (s', ok) := Apply(s, log[0], deviceOk[0]);
      if ok {
        InstalledIsOldOrCreated(s', log[1..], deviceOk[1..], ref);
        var x := Commit(s, log, deviceOk).0.installed[ref];
        if i :| 0 <= i < |log[1..]| && log[1..][i].isCreate && log[1..][i].ref == ref && log[1..][i].entry == x {
          assert log[i + 1] == log[1..][i];
        }
        assert log[0].isCreate && log[0].ref == ref && log[0].entry == x ==> CreatedBy(log, ref, x);
      }
    }
  }

  /** A completed list of creates installs for each key that was absent the entry of its first create, and
      leaves the entries that were there alone. */
  lemma {:induction false} CreatesInstall(s: Store, log: seq<Action>, deviceOk: seq<bool>, i: nat)
    requires |log| == |deviceOk| && Consistent(s) && Commit(s, log, deviceOk).1 == |log|
    requires forall j :: 0 <= j < |log| ==> log[j].isCreate
    requires i < |log| && forall j :: 0 <= j < i ==> log[j].ref != log[i].ref
    ensures var after := Commit(s, log, deviceOk).0;
      && log[i].ref in after.installed
      && after.installed[log[i].ref] == if log[i].ref in s.installed then s.installed[log[i].ref] else log[i].entry
    decreases |log|
  {
    var s' := Apply(s, log[0], deviceOk[0]).0;
    ApplyEffect(s, log[0], deviceOk[0], log[0].ref);
    if i == 0 {
      CreatesKeep(s', log[1..], deviceOk[1..], log[0].ref);
    } else {
      assert log[1..][i - 1] == log[i];
      CreatesInstall(s', log[1..], deviceOk[1..], i - 1);
    }
  }

  lemma {:induction false} CreatesKeep(s: Store, log: seq<Action>, deviceOk: seq<bool>, ref: Ref)
    requires |log| == |deviceOk| && Consistent(s) && ref in s.installed
    requires forall j :: 0 <= j < |log| ==> log[j].isCreate
    ensures var after := Commit(s, log, deviceOk).0;
      ref in after.installed && after.installed[ref] == s.installed[ref]
    decreases |log|
  {
    if log == [] {
    } else {
      var (s', ok) := Apply(s, log[0], deviceOk[0]);
      ApplyEffect(s, log[0], deviceOk[0], log[0].ref);
      if ok {
        CreatesKeep(s', log[1..], deviceOk[1..], ref);
      }
    }
  }

  // ---- Contents after a rollback ----

  /** The entry that `ref` holds after the whole log was applied and undone again: the one carried by
      the first delete that removed it, or its own if nothing removed it. */
  function Survivor(s: Store, log: seq<Action>, ref: Ref): Entry
    requires ref in s.cells
    decreases |log|
  {
    if log == [] then s.cells[ref].entry
    else if !log[0].isCreate && log[0].ref == ref && s.cells[ref].counter == 1 then log[0].entry
    else Survivor(Apply(s, log[0], true).0, log[1..], ref)
  }

  /** Undoing a log undoes its tail first and its head last. */
  lemma {:induction false} RollbackHeadLast(s: Store, log: seq<Action>, deviceOk: seq<bool>)
    requires |log| == |deviceOk| > 0
    ensures var (s1, failed1) := Rollback(s, log[1..], deviceOk[1..]);
      var (s2, ok) := Apply(s1, log[0].Reverse(), deviceOk[0]);
      Rollback(s, log, deviceOk) == (s2, failed1 + (if ok then [] else [log[0]]))
    decreases |log|
  {
    var last := |log| - 1;
    if last == 0 {
      assert log[1..] == [] && log[..0] == [] && deviceOk[..0] == [];
      var (s2, ok) := Apply(s, log[0].Reverse(), deviceOk[0]);
      var tail: seq<Action> := if ok then [] else [log[0]];
      assert Rollback(s, log[1..], deviceOk[1..]) == (s, []) && Rollback(s2, log[..0], deviceOk[..0]) == (s2, []);
      assert [] + tail == tail + [];
    } else {
      var s' := Apply(s, log[last].Reverse(), deviceOk[last]).0;
      RollbackHeadLast(s', log[..last], deviceOk[..last]);
      assert log[..last][1..] == log[1..][..last - 1];
      assert deviceOk[..last][1..] == deviceOk[1..][..last - 1];
      var (s1, failed1) := Rollback(s', log[..last][1..], deviceOk[..last][1..]);
      var (s2, ok) := Apply(s1, log[0].Reverse(), deviceOk[0]);
      var here: seq<Action> := if Apply(s, log[last].Reverse(), deviceOk[last]).1 then [] else [log[last]];
      assert Rollback(s, log[1..], deviceOk[1..]) == (s1, here + failed1);
      var tail: seq<Action> := if ok then [] else [log[0]];
      assert here + (failed1 + tail) == (here + failed1) + tail;
    }
  }

  /** An action that succeeded had the effect it has on a switch that answers. */
  lemma OracleIrrelevant(s: Store, a: Action, deviceOk: bool)
    requires Apply(s, a, deviceOk).1
    ensures Apply(s, a, deviceOk) == Apply(s, a, true)
  {
  }

  /** `t` has the counts of the store after `a`; undoing `a` in `t` restores the counts before `a` and
      rewrites only the entry that `a` removed. */
  lemma ContentsStep(s: Store, a: Action, deviceOk: bool, t: Store, undoOk: bool)
    requires Consistent(s) && Apply(s, a, deviceOk).1 && Apply(t, a.Reverse(), undoOk).1
    requires var s' := Apply(s, a, deviceOk).0;
      t.cells.Keys == s'.cells.Keys && forall ref :: ref in t.cells ==> t.cells[ref].counter == s'.cells[ref].counter
    ensures var t' := Apply(t, a.Reverse(), undoOk).0;
      && t'.cells.Keys == s.cells.Keys
      && forall ref :: ref in s.cells ==>
           && t'.cells[ref].counter == s.cells[ref].counter
           && (if !a.isCreate && a.ref == ref && s.cells[ref].counter == 1 then t'.cells[ref].entry == a.entry
               else ref in t.cells && t'.cells[ref].entry == t.cells[ref].entry)
  {
    var s' := Apply(s, a, deviceOk).0;
    if a.isCreate && a.ref in s.cells {
      assert t.cells[a.ref].counter == s.cells[a.ref].counter + 1;
    } else if a.isCreate {
      assert t.cells[a.ref].counter == s'.cells[a.ref].counter == 1;
    } else if s.cells[a.ref].counter != 1 {
      assert t.cells[a.ref].counter == s.cells[a.ref].counter - 1;
    }
    assert Apply(t, a.Reverse(), undoOk).0.cells.Keys == s.cells.Keys;
  }

  /** The store has the keys and counts of `s`, and of each key the entry that survives the log. */
  ghost predicate Survived(s: Store, log: seq<Action>, after: Store) {
    && after.cells.Keys == s.cells.Keys
    && forall ref :: ref in s.cells ==> after.cells[ref] == Cell(s.cells[ref].counter, Survivor(s, log, ref))
  }

  /** Undoing the head of the log after its tail. */
  lemma UndoHead(s: Store, log: seq<Action>, deviceOk: bool, t: Store, undoOk: bool)
    requires log != [] && Consistent(s) && Apply(s, log[0], deviceOk).1 && Apply(t, log[0].Reverse(), undoOk).1
    requires Survived(Apply(s, log[0], deviceOk).0, log[1..], t)
    ensures Survived(s, log, Apply(t, log[0].Reverse(), undoOk).0)
  {
    var a := log[0];
    ContentsStep(s, a, deviceOk, t, undoOk);
    OracleIrrelevant(s, a, deviceOk);
  }

  /** With every undo successful the rollback restores the counters, and leaves each entry as Survivor says. */
  lemma {:induction false} RollbackContents(s: Store, log: seq<Action>, deviceOk: seq<bool>, undoOk: seq<bool>)
    requires |log| == |deviceOk| == |undoOk| && Consistent(s)
    requires Commit(s, log, deviceOk).1 == |log|
    requires Rollback(Commit(s, log, deviceOk).0, log, undoOk).1 == []
    ensures Survived(s, log, Rollback(Commit(s, log, deviceOk).0, log, undoOk).0)
    decreases |log|
  {
    if log == [] {
    } else {
      var s' := Apply(s, log[0], deviceOk[0]).0;
      ApplyEffect(s, log[0], deviceOk[0], log[0].ref);
      var s1 := Commit(s', log[1..], deviceOk[1..]).0;
      RollbackHeadLast(s1, log, undoOk);
      RollbackContents(s', log[1..], deviceOk[1..], undoOk[1..]);
      UndoHead(s, log, deviceOk[0], Rollback(s1, log[1..], undoOk[1..]).0, undoOk[0]);
    }
  }

  /** Action `k` is a delete that takes the count of `ref` from one to zero. */
  predicate Removes(s: Store, log: seq<Action>, k: nat, ref: Ref)
    requires k < |log|
  {
    !log[k].isCreate && log[k].ref == ref && Count(s, ref) + Net(log[..k], ref) == 1
  }

  predicate FirstRemover(s: Store, log: seq<Action>, k: nat, ref: Ref) {
    k < |log| && Removes(s, log, k, ref) && forall j :: 0 <= j < k ==> !Removes(s, log, j, ref)
  }

  /** The action is not the first of the log, so it can be seen from the state after that one. */
  lemma RemovesLater(s: Store, log: seq<Action>, deviceOk: bool, k: nat, ref: Ref)
    requires Consistent(s) && 0 < k < |log| && Apply(s, log[0], deviceOk).1
    ensures Removes(s, log, k, ref) <==> Removes(Apply(s, log[0], deviceOk).0, log[1..], k - 1, ref)
  {
    ApplyEffect(s, log[0], deviceOk, ref);
    assert log[..k][1..] == log[1..][..k - 1];
  }

  lemma {:induction false} FirstExists(s: Store, log: seq<Action>, k: nat, ref: Ref) returns (m: nat)
    requires k < |log| && Removes(s, log, k, ref)
    ensures FirstRemover(s, log, m, ref)
  {
    if j: nat :| j < k && Removes(s, log, j, ref) {
      m := FirstExists(s, log, j, ref);
    } else {
      m := k;
    }
  }

  /** What survives the first action, if that removes nothing, survives the rest of the log. */
  lemma SurvivorLater(s: Store, log: seq<Action>, deviceOk: bool, ref: Ref)
    requires Consistent(s) && log != [] && Apply(s, log[0], deviceOk).1
    requires ref in s.cells && !Removes(s, log, 0, ref)
    ensures var s' := Apply(s, log[0], deviceOk).0;
      && Consistent(s') && ref in s'.cells && s'.cells[ref].entry == s.cells[ref].entry
      && Survivor(s, log, ref) == Survivor(s', log[1..], ref)
  {
    OracleIrrelevant(s, log[0], deviceOk);
    ApplyEffect(s, log[0], deviceOk, ref);
  }

  /** The surviving entry is that of the first remover... */
  lemma {:induction false} FirstRemoverSurvives(s: Store, log: seq<Action>, deviceOk: seq<bool>, k: nat, ref: Ref)
    requires |log| == |deviceOk| && Consistent(s) && Commit(s, log, deviceOk).1 == |log| && ref in s.cells
    requires FirstRemover(s, log, k, ref)
    ensures Survivor(s, log, ref) == log[k].entry
    decreases |log|
  {
    if k == 0 {
      assert log[..0] == [];
    } else {
      var s' := Apply(s, log[0], deviceOk[0]).0;
      SurvivorLater(s, log, deviceOk[0], ref);
      RemovesLater(s, log, deviceOk[0], k, ref);
      forall j | 0 <= j < k - 1 ensures !Removes(s', log[1..], j, ref) {
        RemovesLater(s, log, deviceOk[0], j + 1, ref);
      }
      FirstRemoverSurvives(s', log[1..], deviceOk[1..], k - 1, ref);
    }
  }

  /** ...and the stored one if nothing removes it. */
  lemma {:induction false} UnremovedSurvives(s: Store, log: seq<Action>, deviceOk: seq<bool>, ref: Ref)
    requires |log| == |deviceOk| && Consistent(s) && Commit(s, log, deviceOk).1 == |log| && ref in s.cells
    requires forall k :: 0 <= k < |log| ==> !Removes(s, log, k, ref)
    ensures Survivor(s, log, ref) == s.cells[ref].entry
    decreases |log|
  {
    if log == [] {
    } else {
      var s' := Apply(s, log[0], deviceOk[0]).0;
      SurvivorLater(s, log, deviceOk[0], ref);
      forall j | 0 <= j < |log[1..]| ensures !Removes(s', log[1..], j, ref) {
        RemovesLater(s, log, deviceOk[0], j + 1, ref);
      }
      UnremovedSurvives(s', log[1..], deviceOk[1..], ref);
    }
  }

  /** Every entry removed on the way was removed first by a delete that carried it. */
  ghost predicate RemoversCarryEntries(s: Store, log: seq<Action>) {
    forall ref, k: nat :: ref in s.cells && FirstRemover(s, log, k, ref) ==> log[k].entry == s.cells[ref].entry
  }

  lemma CarriedSurvives(s: Store, log: seq<Action>, deviceOk: seq<bool>, ref: Ref)
    requires |log| == |deviceOk| && Consistent(s) && Commit(s, log, deviceOk).1 == |log| && ref in s.cells
    requires RemoversCarryEntries(s, log)
    ensures Survivor(s, log, ref) == s.cells[ref].entry
  {
    if k: nat :| k < |log| && Removes(s, log, k, ref) {
      var first := FirstExists(s, log, k, ref);
      FirstRemoverSurvives(s, log, deviceOk, first, ref);
    } else {
      UnremovedSurvives(s, log, deviceOk, ref);
    }
  }

  /** With every undo successful the rollback restores every entry too, in the counters and on the
      switches, exactly if for each key the first delete that removed its entry carried that entry. */
  lemma WhenRollbackRestores(s: Store, log: seq<Action>, deviceOk: seq<bool>, undoOk: seq<bool>)
    requires |log| == |deviceOk| == |undoOk| && Consistent(s)
    requires Commit(s, log, deviceOk).1 == |log|
    requires Rollback(Commit(s, log, deviceOk).0, log, undoOk).1 == []
    ensures var s2 := Rollback(Commit(s, log, deviceOk).0, log, undoOk).0;
      s2.cells == s.cells && s2.installed == s.installed <==> RemoversCarryEntries(s, log)
  {
    var s1 := Commit(s, log, deviceOk).0;
    var s2 := Rollback(s1, log, undoOk).0;
    RollbackContents(s, log, deviceOk, undoOk);
    CommitThenRollback(s, log, deviceOk, undoOk, Ref("", TransitKey));
    assert log[..|log|] == log && undoOk[..|log|] == undoOk;
    if s2.cells == s.cells {
      forall ref, k: nat | ref in s.cells && FirstRemover(s, log, k, ref) ensures log[k].entry == s.cells[ref].entry {
        FirstRemoverSurvives(s, log, deviceOk, k, ref);
      }
    }
    if RemoversCarryEntries(s, log) {
      forall ref | ref in s.cells ensures s2.cells[ref] == s.cells[ref] {
        CarriedSurvives(s, log, deviceOk, ref);
      }
    }
  }

  /** Without that condition contents are not restored: the undone delete writes its own entry. */
  lemma UndoneDeleteRewrites(s: Store, ref: Ref, other: Entry)
    requires Consistent(s) && ref in s.cells && s.cells[ref].counter == 1
    ensures var log := [Action(ref, other, false)];
      var (s1, done) := Commit(s, log, [true]);
      var (s2, failed) := Rollback(s1, log, [true]);
      done == 1 && failed == [] && ref in s2.installed && s2.installed[ref] == other
  {
  }

  // ---- The number of entries ----

  /** The size of one table as the counters see it. */
  ghost function TableSize(s: Store, slot: Slot): nat { |TableRefs(s.cells.Keys, slot)| }

  ghost function TableRefs(refs: set<Ref>, slot: Slot): set<Ref> {
    set ref | ref in refs && SlotOf(ref) == slot
  }

  lemma TableRefsAdd(refs: set<Ref>, ref: Ref, slot: Slot)
    requires ref !in refs
    ensures |TableRefs(refs + {ref}, slot)| == |TableRefs(refs, slot)| + (if SlotOf(ref) == slot then 1 else 0)
  {
    if SlotOf(ref) == slot {
      assert TableRefs(refs + {ref}, slot) == TableRefs(refs, slot) + {ref};
    } else {
      assert TableRefs(refs + {ref}, slot) == TableRefs(refs, slot);
    }
  }

  /** One for a create that finds no entry and is refused by the switch. */
  function Miss(s: Store, a: Action, deviceOk: bool, slot: Slot): nat {
    if a.isCreate && a.ref !in s.cells && !deviceOk && SlotOf(a.ref) == slot then 1 else 0
  }

  datatype Attempt = Attempt(action: Action, deviceOk: bool)

  /** Any sequence of attempts, by any number of intents. */
  function Attempts(s: Store, tries: seq<Attempt>): Store
    decreases |tries|
  {
    if tries == [] then s else Attempts(Apply(s, tries[0].action, tries[0].deviceOk).0, tries[1..])
  }

  function Misses(s: Store, tries: seq<Attempt>, slot: Slot): nat
    decreases |tries|
  {
    if tries == [] then 0
    else
      var s' := Apply(s, tries[0].action, tries[0].deviceOk).0;
      Miss(s, tries[0].action, tries[0].deviceOk, slot) + Misses(s', tries[1..], slot)
  }

  lemma TableSizeStep(s: Store, a: Action, deviceOk: bool, slot: Slot)
    ensures var s' := Apply(s, a, deviceOk).0;
      TableSize(s', slot) == TableSize(s, slot)
        + (if SlotOf(a.ref) != slot || (a.ref in s.cells <==> a.ref in s'.cells) then 0
           else if a.ref in s.cells then -1 else 1)
  {
    var s' := Apply(s, a, deviceOk).0;
    if a.ref in s.cells {
      TableRefsAdd(s.cells.Keys - {a.ref}, a.ref, slot);
      assert s.cells.Keys - {a.ref} + {a.ref} == s.cells.Keys;
      assert s'.cells.Keys == if a.ref in s'.cells then s.cells.Keys else s.cells.Keys - {a.ref};
    } else {
      TableRefsAdd(s.cells.Keys, a.ref, slot);
      assert s'.cells.Keys == if a.ref in s'.cells then s.cells.Keys + {a.ref} else s.cells.Keys;
    }
  }

  lemma NumEntriesStep(s: Store, a: Action, deviceOk: bool, slot: Slot)
    requires Consistent(s)
    ensures var s' := Apply(s, a, deviceOk).0;
      NumEntries(s', slot) - NumEntries(s, slot) == Miss(s, a, deviceOk, slot)
        + (if SlotOf(a.ref) != slot || (a.ref in s.cells <==> a.ref in s'.cells) then 0
           else if a.ref in s.cells then -1 else 1)
  {
  }

  /** In every interleaving of actions the recorded number of entries exceeds the size of the table by
      exactly the number of failed first writes. */
  lemma {:induction false} NumEntriesDrift(s: Store, tries: seq<Attempt>, slot: Slot)
    requires Consistent(s)
    ensures var s' := Attempts(s, tries);
      NumEntries(s', slot) - TableSize(s', slot) == NumEntries(s, slot) - TableSize(s, slot) + Misses(s, tries, slot)
    decreases |tries|
  {
    if tries == [] {
    } else {
      TableSizeStep(s, tries[0].action, tries[0].deviceOk, slot);
      NumEntriesStep(s, tries[0].action, tries[0].deviceOk, slot);
      ApplyEffect(s, tries[0].action, tries[0].deviceOk, tries[0].action.ref);
      NumEntriesDrift(Apply(s, tries[0].action, tries[0].deviceOk).0, tries[1..], slot);
    }
  }
}
