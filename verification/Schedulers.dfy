/** The grid of slots that both schedulers use: multiples of the interval from the anchor on. */
module Cadences {
  import opened Wrappers

  datatype Cadence = Cadence(anchor: int, interval: int)

  predicate Regular(c: Cadence) {
    c.interval > 0
  }

  /** `slot`: the latest slot that is not after the given time; none before the anchor. */
  function Slot(c: Cadence, t: int): Option<int>
    requires Regular(c)
  {
    if t < c.anchor then None else Some(c.anchor + (t - c.anchor) / c.interval * c.interval)
  }

  ghost predicate Aligned(c: Cadence, s: int) {
    exists k: nat :: s == Tick(c, k)
  }

  function Tick(c: Cadence, k: nat): int {
    c.anchor + k * c.interval
  }

  lemma TicksApart(c: Cadence, j: nat, k: nat)
    requires Regular(c) && j < k
    ensures Tick(c, j) + c.interval <= Tick(c, k)
  {
    Distribute(j, k, c.interval);
    AtLeastOnce(k - j, c.interval);
  }

  lemma Distribute(j: int, k: int, b: int)
    ensures k * b == j * b + (k - j) * b
  {
  }

  lemma AtLeastOnce(n: int, b: int)
    requires n >= 1 && b >= 0
    ensures n * b >= b
  {
    assert (n - 1) * b >= 0;
    Distribute(1, n, b);
  }

  /** The slot of a time is the one aligned instant whose interval contains that time. */
  lemma SlotIsTheContainingTick(c: Cadence, t: int, s: int)
    requires Regular(c)
    ensures Slot(c, t) == Some(s) <==> Aligned(c, s) && s <= t < s + c.interval
  {
    if t >= c.anchor {
      var k := (t - c.anchor) / c.interval;
      assert k >= 0 && Tick(c, k) <= t < Tick(c, k) + c.interval;
      if Aligned(c, s) && s <= t < s + c.interval {
        var j: nat :| s == Tick(c, j);
        if j < k {
          TicksApart(c, j, k);
        } else if k < j {
          TicksApart(c, k, j);
        }
      }
    } else if Aligned(c, s) {
      var j: nat :| s == Tick(c, j);
      assert j * c.interval >= 0;
    }
  }

  /** A slot is its own slot, which is what the loaders check. */
  lemma SlotsAreAligned(c: Cadence, s: int)
    requires Regular(c)
    ensures Slot(c, s) == Some(s) <==> Aligned(c, s)
  {
    SlotIsTheContainingTick(c, s, s);
  }

  lemma SlotIsIdempotent(c: Cadence, t: int)
    requires Regular(c) && Slot(c, t).Some?
    ensures Slot(c, Slot(c, t).value) == Slot(c, t)
  {
    SlotIsTheContainingTick(c, t, Slot(c, t).value);
    SlotsAreAligned(c, Slot(c, t).value);
  }

  lemma SlotIsMonotone(c: Cadence, t: int, u: int)
    requires Regular(c) && t <= u && Slot(c, t).Some?
    ensures Slot(c, u).Some? && Slot(c, t).value <= Slot(c, u).value
  {
    var s, r := Slot(c, t).value, Slot(c, u).value;
    SlotIsTheContainingTick(c, t, s);
    SlotIsTheContainingTick(c, u, r);
    var j: nat :| s == Tick(c, j);
    var k: nat :| r == Tick(c, k);
    if k < j {
      TicksApart(c, k, j);
    }
  }

  /** The log of a scheduler: each slot at most once, in order, all on the grid. */
  ghost predicate Orderly(c: Cadence, runs: seq<int>) {
    && (forall i :: 0 <= i < |runs| ==> Aligned(c, runs[i]))
    && (forall i, j :: 0 <= i < j < |runs| ==> runs[i] < runs[j])
  }
}

/** The guardian scheduler: a durable reservation per slot, then the cycle, then its completion. */
module GuardianSchedule {
  import opened Cadences
  import opened DurableState
  import opened Wrappers

  datatype Document = Document(cadence: Cadence, reserved: Option<int>, completed: Option<int>)

  /** The checks of `_load` on a decoded document. */
  predicate Acceptable(c: Cadence, d: Document)
    requires Regular(c)
  {
    && d.cadence == c
    && (d.completed.Some? ==> d.reserved.Some? && d.completed.value <= d.reserved.value)
    && (d.reserved.Some? ==> Slot(c, d.reserved.value) == d.reserved)
    && (d.completed.Some? ==> Slot(c, d.completed.value) == d.completed)
  }

  datatype Status = Completed | Skipped | Error

  datatype Outcome = Outcome(status: Status, slot: Option<int>, reason: string) | Died

  datatype Cycle = Returned(ok: bool) | Raised

  /** What happens to the machine: some process polls at a clock reading, or everything stops. */
  datatype Event = Poll(now: int) | MachineCrash

  class GuardianScheduler {
    const cadence: Cadence
    const file: StateFile<Document>
    // the slots for which `run_cycle` was called, by any process
    ghost var runs: seq<int>

    /** Whatever a crash leaves is acceptable to the loader and remembers every slot that was run. */
    ghost predicate Remembers(d: Option<Document>)
      requires Regular(cadence)
      reads this
    {
      && (d.Some? ==> Acceptable(cadence, d.value))
      && (runs != [] ==> d.Some? && d.value.reserved.Some? && runs[|runs| - 1] <= d.value.reserved.value)
    }

    ghost predicate Valid()
      reads this, file
    {
      && Regular(cadence) && file.Valid() && Orderly(cadence, runs)
      && forall d :: d in file.possible ==> Remembers(d)
    }

    constructor (cadence: Cadence)
      requires Regular(cadence)
      ensures Valid() && fresh(file) && runs == [] && this.cadence == cadence
    {
      this.cadence := cadence;
      file := new StateFile();
      runs := [];
    }

    /** `_load`: whatever was written here passes the checks, so only the read itself can fail. */
    method Load(readable: bool) returns (d: Option<Document>)
      requires Valid()
      ensures d.Some? <==> readable
      ensures d.Some? ==> Acceptable(cadence, d.value)
      ensures d.Some? ==> d.value == if file.current.Some? then file.current.value else Document(cadence, None, None)
    {
      assert Remembers(file.current);
      d := if !readable then None
           else if file.current.None? then Some(Document(cadence, None, None))
           else if Acceptable(cadence, file.current.value) then file.current
           else None;
    }

    /** `claim`: reserve the slot if it is later than every reservation; None is the state error. */
    method Claim(slot: int) returns (r: Option<bool>)
      requires Valid() && Slot(cadence, slot) == Some(slot)
      modifies file
      ensures Valid()
      ensures r == Some(true) ==> file.current.Some? && file.possible == {file.current}
                                  && file.current.value.reserved == Some(slot)
      ensures r == Some(true) ==> forall i :: 0 <= i < |runs| ==> runs[i] < slot
      ensures r == Some(false) ==> file.current == old(file.current) && file.current.Some?
                                   && file.current.value.reserved.Some? && slot <= file.current.value.reserved.value
    {
      var readable: bool := *;
      var d := Load(readable);
      if d.None? {
        return None;
      }
      if d.value.reserved.Some? && slot <= d.value.reserved.value {
        return Some(false);
      }
      assert Remembers(file.current);
      var next := d.value.(reserved := Some(slot));
      assert Remembers(Some(next));
      var written := file.Replace(next);
      r := if written then Some(true) else None;
    }

    /** `complete`: only the slot that is still the reserved one. */
    method Complete(slot: int) returns (ok: bool)
      requires Valid() && Slot(cadence, slot) == Some(slot)
      modifies file
      ensures Valid()
      ensures ok ==> file.current.Some? && file.current.value.completed == Some(slot) == file.current.value.reserved
                     && file.possible == {file.current}
    {
      var readable: bool := *;
      var d := Load(readable);
      if d.None? || d.value.reserved != Some(slot) {
        return false;
      }
      assert Remembers(file.current);
      var next := d.value.(completed := Some(slot));
      assert Remembers(Some(next));
      ok := file.Replace(next);
    }

    /** `runner.run_cycle`: recorded when it is called. */
    method RunCycle(slot: int) returns (r: Cycle)
      requires Regular(cadence)
      modifies this
      ensures runs == old(runs) + [slot]
    {
      runs := runs + [slot];
      r := *;
    }

    /**
      `poll`. The cycle runs at most once per slot and in the order of the slots, whatever the clock does and
      wherever the process dies, because nothing runs before its reservation is durable.
     */
    method Poll(now: int) returns (r: Outcome)
      requires Valid()
      modifies this, file
      ensures Valid()
      ensures runs == old(runs) || (Slot(cadence, now).Some? && runs == old(runs) + [Slot(cadence, now).value])
      ensures r.Outcome? && r.status == Completed ==>
                runs != old(runs) && file.current.Some? && file.possible == {file.current}
                && file.current.value.completed == r.slot == Slot(cadence, now)
      ensures r.Outcome? && r.status == Skipped ==> runs == old(runs)
      ensures r.Outcome? && r.reason == "slot_already_reserved" ==>
                file.current.Some? && file.current.value.reserved.Some? && r.slot.Some?
                    && r.slot.value <= file.current.value.reserved.value
      ensures now < cadence.anchor <==> r == Outcome(Skipped, None, "before_anchor")
    {
      var found := Slot(cadence, now);
      if found.None? {
        return Outcome(Skipped, None, "before_anchor");
      }
      var slot := found.value;
      SlotIsIdempotent(cadence, now);
      SlotsAreAligned(cadence, slot);
      var busy: bool, locked: bool := *, *;
      if busy {
        return Outcome(Skipped, found, "cycle_in_progress");
      }
      if locked {
        return Outcome(Skipped, found, "state_locked");
      }
      var claimed := Claim(slot);
      if claimed.None? {
        return Outcome(Error, found, "state_error");
      }
      if !claimed.value {
        return Outcome(Skipped, found, "slot_already_reserved");
      }
      var dies: bool := *;
      if dies {
        return Died;
      }
      assert claimed == Some(true);
      var cycle := RunCycle(slot);
      assert Valid();
      var diesLater: bool := *;
      if diesLater {
        return Died;
      }
      if cycle.Raised? || !cycle.ok {
        return Outcome(Error, found, "cycle_error");
      }
      var completed := Complete(slot);
      r := if completed then Outcome(Completed, found, "cycle_completed") else Outcome(Error, found, "state_error");
    }

    /** Any history of polls, by any number of processes, with crashes of processes and of the machine in between. */
    method RunHistory(events: seq<Event>)
      requires Valid()
      modifies this, file
      ensures Valid() && old(runs) <= runs && |runs| <= |old(runs)| + |events|
    {
      for i := 0 to |events|
        invariant Valid() && old(runs) <= runs && |runs| <= |old(runs)| + i
      {
        match events[i]
        case Poll(now) =>
          var _ := Poll(now);
        case MachineCrash =>
          file.Crash();
      }
    }
  }
}

/** The opportunity-alert scheduler: the same reservation, and a completion that records even a failed cycle. */
module OpportunityAlertSchedule {
  import opened Cadences
  import opened DurableState
  import opened Wrappers

  datatype CycleStatus = CycleCompleted | CycleError

  datatype CycleResult = CycleResult(status: CycleStatus, reasonCodes: seq<string>)

  datatype Document = Document(cadence: Cadence, started: Option<int>, completed: Option<int>,
                               lastResult: Option<CycleResult>)

  /** The checks of `load` on a decoded document. */
  predicate Acceptable(c: Cadence, d: Document)
    requires Regular(c)
  {
    && d.cadence == c
    && (d.started.Some? ==> Slot(c, d.started.value) == d.started)
    && (d.completed.Some? ==> Slot(c, d.completed.value) == d.completed)
    && (d.completed.Some? ==> d.started.Some? && d.completed.value <= d.started.value)
    && (d.completed.Some? <==> d.lastResult.Some?)
  }

  datatype Status = Completed | Skipped | Overlap | Error

  datatype Outcome =
    | Outcome(status: Status, slot: Option<int>, reason: string, cycle: Option<CycleResult>)
    | InvalidCycleTime
    | Died

  datatype Event = Poll(now: int, cycleTime: Option<int>) | MachineCrash

  class OpportunityAlertScheduler {
    const cadence: Cadence
    const file: StateFile<Document>
    ghost var runs: seq<int>

    ghost predicate Remembers(d: Option<Document>)
      requires Regular(cadence)
      reads this
    {
      && (d.Some? ==> Acceptable(cadence, d.value))
      && (runs != [] ==> d.Some? && d.value.started.Some? && runs[|runs| - 1] <= d.value.started.value)
    }

    ghost predicate Valid()
      reads this, file
    {
      && Regular(cadence) && file.Valid() && Orderly(cadence, runs)
      && forall d :: d in file.possible ==> Remembers(d)
    }

    constructor (cadence: Cadence)
      requires Regular(cadence)
      ensures Valid() && fresh(file) && runs == [] && this.cadence == cadence
    {
      this.cadence := cadence;
      file := new StateFile();
      runs := [];
    }

    /** `load`: whatever was written here passes the checks, so only the read itself can fail. */
    method Load(readable: bool) returns (d: Option<Document>)
      requires Valid()
      ensures d.Some? <==> readable
      ensures d.Some? ==> Acceptable(cadence, d.value)
      ensures d.Some? ==> d.value == if file.current.Some? then file.current.value
              else Document(cadence, None, None, None)
    {
      assert Remembers(file.current);
      d := if !readable then None
           else if file.current.None? then Some(Document(cadence, None, None, None))
           else if Acceptable(cadence, file.current.value) then file.current
           else None;
    }

    /** Start the slot: write it before the cycle runs, then run the cycle, whatever it does. */
    method Start(slot: int, d: Document) returns (cycle: Option<CycleResult>)
      requires Valid() && Slot(cadence, slot) == Some(slot)
      requires d == if file.current.Some? then file.current.value else Document(cadence, None, None, None)
      requires d.started.Some? ==> d.started.value < slot
      modifies this, file
      ensures Valid()
      ensures runs == if cycle.Some? then old(runs) + [slot] else old(runs)
      ensures cycle.Some? ==> file.current == Some(d.(started := Some(slot))) && file.possible == {file.current}
    {
      SlotsAreAligned(cadence, slot);
      assert Remembers(file.current);
      var next := d.(started := Some(slot));
      assert Remembers(Some(next));
      var written := file.Replace(next);
      if !written {
        return None;
      }
      runs := runs + [slot];
      var raises: bool, status: CycleStatus, reasons: seq<string> := *, *, *;
      cycle := Some(if raises then CycleResult(CycleError, ["scheduler_runner_failed"])
                    else CycleResult(status, reasons));
    }

    /** `poll`. */
    method Poll(now: int, cycleTime: Option<int>) returns (r: Outcome)
      requires Valid()
      modifies this, file
      ensures Valid()
      ensures runs == old(runs) || (Slot(cadence, now).Some? && runs == old(runs) + [Slot(cadence, now).value])
      ensures r.Outcome? && r.status == Completed ==>
                && runs != old(runs) && r.cycle.Some? && file.current.Some? && file.possible == {file.current}
                && file.current.value.completed == r.slot == Slot(cadence, now)
                   && file.current.value.lastResult == r.cycle
      ensures r.Outcome? && (r.status == Skipped || r.status == Overlap) ==> runs == old(runs)
      ensures r.Outcome? && r.status == Error ==> (r.cycle.Some? <==> runs != old(runs))
      ensures now < cadence.anchor <==> r == Outcome(Skipped, None, "before_anchor", None)
      ensures r.InvalidCycleTime? <==>
                Slot(cadence, now).Some? && cycleTime.Some? && Slot(cadence, cycleTime.value) != Slot(cadence, now)
      ensures r.InvalidCycleTime? ==> runs == old(runs)
    {
      var found := Slot(cadence, now);
      if found.None? {
        return Outcome(Skipped, None, "before_anchor", None);
      }
      var slot := found.value;
      SlotIsIdempotent(cadence, now);
      var at := if cycleTime.None? then slot else cycleTime.value;
      if Slot(cadence, at) != found {
        return InvalidCycleTime;
      }
      var busy: bool, locked: bool := *, *;
      if busy {
        return Outcome(Overlap, found, "cycle_in_progress", None);
      }
      if !locked {
        return Outcome(Error, found, "scheduler_state_unavailable", None);
      }
      var readable: bool := *;
      var d := Load(readable);
      if d.None? {
        return Outcome(Error, found, "scheduler_state_unavailable", None);
      }
      if d.value.started.Some? && slot <= d.value.started.value {
        return Outcome(Skipped, found, "slot_already_reserved", None);
      }
      var cycle := Start(slot, d.value);
      if cycle.None? {
        return Outcome(Error, found, "scheduler_state_unavailable", None);
      }
      var dies: bool := *;
      if dies {
        return Died;
      }
      var next := d.value.(started := Some(slot), completed := Some(slot), lastResult := cycle);
      assert Remembers(file.current);
      assert Remembers(Some(next));
      var written := file.Replace(next);
      r := if written then Outcome(Completed, found, "cycle_completed", cycle)
           else Outcome(Error, found, "scheduler_state_unavailable", cycle);
    }

    /** Any history of polls and crashes: each slot is run at most once, in order. */
    method RunHistory(events: seq<Event>)
      requires Valid()
      modifies this, file
      ensures Valid() && old(runs) <= runs && |runs| <= |old(runs)| + |events|
    {
      for i := 0 to |events|
        invariant Valid() && old(runs) <= runs && |runs| <= |old(runs)| + i
      {
        match events[i]
        case Poll(now, cycleTime) =>
          var _ := Poll(now, cycleTime);
        case MachineCrash =>
          file.Crash();
      }
    }
  }
}
