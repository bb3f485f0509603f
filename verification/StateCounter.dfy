/** The counters and the switches as objects that are updated in place. The five counters of the
    service are one object here, since the key of an action says which table it belongs to. */
module StateCounters {
  import opened Tables

  /** A switch refused one of the requests `from` to `to`. */
  ghost predicate Refusal(answer: nat -> bool, from: nat, to: nat) {
    exists n :: from <= n < to && !answer(n)
  }

  /** The switches behind the device provider. `answer` says which of the requests sent to them they will
      accept, in the order in which they are sent; it may be any function. A refused request changes nothing. */
  class Switches {
    var installed: map<Ref, Entry>
    var asked: nat
    const answer: nat -> bool

    constructor (answer: nat -> bool)
      ensures installed == map[] && asked == 0 && this.answer == answer
    {
      installed, asked := map[], 0;
      this.answer := answer;
    }

    method WriteEntry(ref: Ref, entry: Entry) returns (ok: bool)
      modifies this
      ensures ok == answer(old(asked)) && asked == old(asked) + 1
      ensures installed == if ok then old(installed)[ref := entry] else old(installed)
    {
      ok := answer(asked);
      asked := asked + 1;
      if ok {
        installed := installed[ref := entry];
      }
    }

    method DeleteEntry(ref: Ref) returns (ok: bool)
      modifies this
      ensures ok == answer(old(asked)) && asked == old(asked) + 1
      ensures installed == if ok then old(installed) - {ref} else old(installed)
    {
      ok := answer(asked);
      asked := asked + 1;
      if ok {
        installed := installed - {ref};
      }
    }
  }

  class StateCounter {
    var tableState: map<Ref, Cell>
    var numEntries: map<Slot, int>

    constructor ()
      ensures tableState == map[] && numEntries == map[]
    {
      tableState := map[];
      numEntries := map[];
    }

    ghost function Store(switches: Switches): Store
      reads this, switches
    {
      Tables.Store(tableState, numEntries, switches.installed)
    }

    method AddToNumEntries(slot: Slot, delta: int)
      modifies this`numEntries
      ensures var before := if slot in old(numEntries) then old(numEntries)[slot] else 0;
        numEntries == old(numEntries)[slot := before + delta]
    {
      numEntries := numEntries[slot := (if slot in numEntries then numEntries[slot] else 0) + delta];
    }

    /** Count `ref` up and write `val` if it was not counted before. */
    method IncrementAndRunOnTransitionToOne(ref: Ref, val: Entry, switches: Switches)
      returns (ok: bool, ghost deviceOk: bool)
      modifies this, switches
      ensures (Store(switches), ok) == Apply(old(Store(switches)), Action(ref, val, true), deviceOk)
      ensures switches.asked >= old(switches.asked)
      ensures !deviceOk ==> Refusal(switches.answer, old(switches.asked), switches.asked)
    {
      deviceOk := true;
      var cell: Cell;
      if ref in tableState {
        cell := tableState[ref];
      } else {
        cell := Cell(0, val);
        AddToNumEntries(SlotOf(ref), 1);
      }
      if cell.counter == 0 {
        ok := switches.WriteEntry(ref, val);
        deviceOk := ok;
        if !ok {
          return;
        }
      }
      tableState := tableState[ref := cell.(counter := cell.counter + 1)];
      ok := true;
    }

    /** Count `ref` down and delete its entry if this was the last use. */
    method DecrementAndRunOnTransitionToZero(ref: Ref, ghost val: Entry, switches: Switches)
      returns (ok: bool, ghost deviceOk: bool)
      modifies this, switches
      ensures (Store(switches), ok) == Apply(old(Store(switches)), Action(ref, val, false), deviceOk)
      ensures switches.asked >= old(switches.asked)
      ensures !deviceOk ==> Refusal(switches.answer, old(switches.asked), switches.asked)
    {
      deviceOk := true;
      if ref !in tableState {
        return false, true;
      }
      var cell := tableState[ref];
      if cell.counter == 1 {
        ok := switches.DeleteEntry(ref);
        deviceOk := ok;
        if !ok {
          return;
        }
        AddToNumEntries(SlotOf(ref), -1);
        tableState := tableState - {ref};
      } else {
        tableState := tableState[ref := cell.(counter := cell.counter - 1)];
      }
      ok := true;
    }
  }

  method ApplyChange(counter: StateCounter, switches: Switches, a: Action) returns (ok: bool, ghost deviceOk: bool)
    modifies counter, switches
    ensures (counter.Store(switches), ok) == Apply(old(counter.Store(switches)), a, deviceOk)
    ensures switches.asked >= old(switches.asked)
    ensures !deviceOk ==> Refusal(switches.answer, old(switches.asked), switches.asked)
  {
    if a.isCreate {
      ok, deviceOk := counter.IncrementAndRunOnTransitionToOne(a.ref, a.entry, switches);
    } else {
      ok, deviceOk := counter.DecrementAndRunOnTransitionToZero(a.ref, a.entry, switches);
    }
  }
}
