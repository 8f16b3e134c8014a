/**
  The life of a field-lab store: any sequence of scopes opened and closed, artifacts saved, reports, rebuilds and
  refreshes. Nothing saved is lost or changed, no sequence of saves and nested scopes brings the count to a stop,
  and every report is that of the inventory of its moment.
 */
module FieldLabHistory {
  import opened Wrappers
  import opened FieldLabArtifacts
  import opened FieldLabIndex
  import opened FieldLabBuild
  import opened FieldLabCapacity
  import opened FieldLabSession

  /** What a program may do with a store; `Put` is a save in a scope of its own, `Add` one in the scope that is open. */
  datatype Step =
    | Open(maxNames: nat) | Close | Put(a: Artifact) | Add(a: Artifact)
        | Report(maxNames: nat, start: Option<int>, end: Option<int>)
    | Rebuild(maxNames: nat, force: bool) | Refresh(counted: nat, maxNames: nat, threshold: nat)

  datatype Answer = Done(ok: bool) | Saved(r: Result<bool>) | Reported(ok: bool, selected: Option<seq<Artifact>>)

  /**
    The inventory at some moment, the stops of the open scopes, the outermost first, and how many names the index does
    not know, where there is one.
   */
  datatype Moment = Moment(files: map<nat, File>, stops: seq<nat>, tail: Option<nat>)

  /** A nested scope can only lower the stop. */
  ghost predicate Nested(stops: seq<nat>) {
    forall i, j :: 0 <= i <= j < |stops| ==> stops[i] >= stops[j]
  }

  /** What holds between any two steps: stops are nested, and the tail of an open session is bounded. */
  ghost predicate Kept(m: Moment) {
    Nested(m.stops) && (m.stops != [] && m.tail.Some? ==> m.tail.value <= TAIL_LIMIT)
  }

  /** The stop of a scope that would stop at `own`, inside the scopes that are open. */
  function Lowered(stops: seq<nat>, own: nat): nat {
    if stops != [] && stops[|stops| - 1] <= own then stops[|stops| - 1] else own
  }

  /** The answer to a save in a scope that stops at `stop`. */
  ghost function Admitted(c: Codec, a: Artifact, stop: nat, m: Moment): Result<bool>
    requires c.FaithfulInventory(m.files)
  {
    Admission(c, m.files, a, stop, |m.files|, m.tail.Some?, if m.tail.Some? then m.tail.value else 0)
  }

  /** What a save leaves: one more artifact and a longer tail if it was admitted as new, and otherwise no change. */
  ghost predicate Leaves(c: Codec, a: Artifact, r: Result<bool>, before: Moment, after: Moment) {
    if r == Success(true) then
      && after.files == before.files[c.sha(a.key) := Envelope(a)] && after.stops == before.stops
      && after.tail == if before.tail.Some? then Some(before.tail.value + 1) else None
    else after == before
  }

  /** What one step does, and answers. */
  ghost predicate Steps(c: Codec, step: Step, answer: Answer, before: Moment, after: Moment) {
    match step
    case Open(maxNames) =>
      && answer.Done? && after.files == before.files && after.tail == before.tail
      && after.stops == (if answer.ok then before.stops + [Lowered(before.stops, CapacityPolicy(maxNames).stopAt)]
                         else before.stops)
      && (before.stops != [] ==> (answer.ok <==> |before.files| <= maxNames))
    case Close =>
      && after.files == before.files && after.tail == before.tail
      && after.stops == (if before.stops == [] then [] else before.stops[..|before.stops| - 1])
    case Put(a) =>
      && answer.Saved? && Leaves(c, a, answer.r, before, after) && c.FaithfulInventory(before.files)
      && (answer.r == Failure("field_lab_name_limit_exceeded")
          || answer.r == Admitted(c, a, Lowered(before.stops, CapacityPolicy(SAVE_CEILING).stopAt), before))
    case Add(a) =>
      && answer.Saved? && Leaves(c, a, answer.r, before, after) && c.FaithfulInventory(before.files)
      && if before.stops == [] then answer.r.Failure?
         else answer.r == Admitted(c, a, before.stops[|before.stops| - 1], before)
    case Report(maxNames, start, end) =>
      && answer.Reported? && after == before
      && (answer.ok ==> (answer.selected.Some? <==> before.tail.Some?))
      && (answer.ok && answer.selected.Some? ==>
            Yields(c, before.files, answer.selected.value, ReportedNames(c, before.files, start, end)))
    case Rebuild(maxNames, force) =>
      && answer.Done? && after == before.(tail := if answer.ok then Some(0) else before.tail)
      && (before.stops != [] ==> !answer.ok)
    case Refresh(counted, maxNames, threshold) =>
      answer.Done? && after == before.(tail := if answer.ok then Some(0) else before.tail)
  }

  /** A run: a moment before each step and one after the last, each step doing what it says. */
  ghost predicate Run(c: Codec, steps: seq<Step>, answers: seq<Answer>, trace: seq<Moment>) {
    && |answers| == |steps| && |trace| == |steps| + 1
    && (forall i :: 0 <= i < |trace| ==> Kept(trace[i]))
    && (forall i :: 0 <= i < |steps| ==> Steps(c, steps[i], answers[i], trace[i], trace[i + 1]))
  }

  // ---- what a run keeps ----

  lemma Sized(c: Codec, steps: seq<Step>, answers: seq<Answer>, trace: seq<Moment>)
    requires Run(c, steps, answers, trace)
    ensures |trace| == |steps| + 1 == |answers| + 1
  {
  }

  lemma StepOf(c: Codec, steps: seq<Step>, answers: seq<Answer>, trace: seq<Moment>, i: nat)
    requires Run(c, steps, answers, trace) && i + 1 < |trace|
    ensures i < |steps| == |answers| && Kept(trace[i])
    ensures Steps(c, steps[i], answers[i], trace[i], trace[i + 1])
  {
    hide Steps, Kept;
  }

  /** An admitted artifact is new, and below the stop and the tail's limit; an adopted one is there already. */
  lemma AdmittedMeans(c: Codec, a: Artifact, stop: nat, m: Moment)
    requires c.FaithfulInventory(m.files)
    ensures Admitted(c, a, stop, m) == Success(true) ==>
              c.sha(a.key) !in m.files && |m.files| + 1 < stop && (m.tail.Some? ==> m.tail.value < TAIL_LIMIT)
    ensures Admitted(c, a, stop, m) == Success(false) ==>
              c.sha(a.key) in m.files && m.files[c.sha(a.key)] == Envelope(a)
  {
    AdmittedOutcome(c, m.files, a, stop, |m.files|, m.tail.Some?, if m.tail.Some? then m.tail.value else 0);
  }

  /** What a save means for the inventory, in a scope of its own or in the open one. */
  lemma SaveMeans(c: Codec, step: Step, answer: Answer, before: Moment, after: Moment)
    requires Steps(c, step, answer, before, after) && (step.Put? || step.Add?)
    ensures answer.Saved? && Leaves(c, step.a, answer.r, before, after)
    ensures answer.r == Success(true) ==>
              c.sha(step.a.key) !in before.files
              && (before.stops != [] ==> |before.files| + 1 < before.stops[|before.stops| - 1])
    ensures answer.r.Success? ==>
              c.sha(step.a.key) in after.files && after.files[c.sha(step.a.key)] == Envelope(step.a)
  {
    var stop := Bound(step, before);
    BoundOf(c, step, answer, before, after);
    hide Steps, Admitted, CapacityPolicy, Bound;
    if answer.r.Success? {
      AdmittedMeans(c, step.a, stop, before);
    }
  }

  /** The stop that a save meets. */
  function Bound(step: Step, m: Moment): nat {
    if step.Put? then Lowered(m.stops, CapacityPolicy(SAVE_CEILING).stopAt)
    else if m.stops != [] then m.stops[|m.stops| - 1] else 0
  }

  lemma BoundOf(c: Codec, step: Step, answer: Answer, before: Moment, after: Moment)
    requires Steps(c, step, answer, before, after) && (step.Put? || step.Add?)
    ensures answer.Saved? && Leaves(c, step.a, answer.r, before, after) && c.FaithfulInventory(before.files)
    ensures answer.r.Success? ==> answer.r == Admitted(c, step.a, Bound(step, before), before)
    ensures before.stops != [] ==> Bound(step, before) <= before.stops[|before.stops| - 1]
  {
    hide Admitted, CapacityPolicy, Leaves;
  }

  lemma StepKeepsFiles(c: Codec, step: Step, answer: Answer, before: Moment, after: Moment, n: nat)
    requires Steps(c, step, answer, before, after) && n in before.files
    ensures n in after.files && after.files[n] == before.files[n]
  {
    if step.Put? || step.Add? {
      SaveMeans(c, step, answer, before, after);
      hide Steps;
    }
  }

  /** Whatever was in the inventory at some moment is there, unchanged, at every later one. */
  lemma {:induction false} FilesStay(c: Codec, steps: seq<Step>, answers: seq<Answer>, trace: seq<Moment>, i: nat,
                                     j: nat, n: nat)
    requires Run(c, steps, answers, trace) && i <= j <= |steps| && n in trace[i].files
    ensures n in trace[j].files && trace[j].files[n] == trace[i].files[n]
    decreases j
  {
    hide *;
    Sized(c, steps, answers, trace);
    if i < j {
      StepOf(c, steps, answers, trace, j - 1);
      FilesStay(c, steps, answers, trace, i, j - 1, n);
      StepKeepsFiles(c, steps[j - 1], answers[j - 1], trace[j - 1], trace[j], n);
    }
  }

  /** What a save reports as saved is in the inventory from then on. */
  lemma SavedStays(c: Codec, steps: seq<Step>, answers: seq<Answer>, trace: seq<Moment>, i: nat, j: nat, a: Artifact)
    requires Run(c, steps, answers, trace) && i < j <= |steps| && steps[i] in {Put(a), Add(a)} && answers[i].Saved?
             && answers[i].r.Success?
    ensures c.sha(a.key) in trace[j].files && trace[j].files[c.sha(a.key)] == Envelope(a)
  {
    StepOf(c, steps, answers, trace, i);
    SaveMeans(c, steps[i], answers[i], trace[i], trace[i + 1]);
    FilesStay(c, steps, answers, trace, i + 1, j, c.sha(a.key));
  }

  ghost predicate StaysOpen(trace: seq<Moment>, i: int, j: int, k: int) {
    0 <= i <= j < |trace| && 0 <= k && forall m :: i <= m <= j ==> k < |trace[m].stops|
  }

  lemma OpenUntil(trace: seq<Moment>, i: nat, j: nat, k: nat)
    requires StaysOpen(trace, i, j, k)
    ensures i <= j < |trace| && k < |trace[j].stops|
    ensures i < j ==> StaysOpen(trace, i, j - 1, k) && k < |trace[j - 1].stops|
  {
  }

  /** One step while the scope at depth `k` stays open. */
  lemma StepKeepsBelow(c: Codec, step: Step, answer: Answer, before: Moment, after: Moment, k: nat)
    requires Steps(c, step, answer, before, after) && Kept(before) && k < |before.stops| && k < |after.stops|
    ensures after.stops[k] == before.stops[k]
    ensures |before.files| < before.stops[k] ==> |after.files| < after.stops[k]
  {
    assert before.stops[k] >= before.stops[|before.stops| - 1];
    if step.Put? || step.Add? {
      SaveMeans(c, step, answer, before, after);
      hide Steps;
      if answer.r == Success(true) {
        OneMoreFile(before.files, c.sha(step.a.key), Envelope(step.a));
      }
    }
  }

  /**
    No sequence of saves and nested scopes brings the count to a stop: as long as a scope stays open its stop stays
    the same, and an inventory that was below it is still below it.
   */
  lemma {:induction false} StopsHold(c: Codec, steps: seq<Step>, answers: seq<Answer>, trace: seq<Moment>, i: nat,
                                     j: nat, k: nat)
    requires Run(c, steps, answers, trace) && StaysOpen(trace, i, j, k)
    ensures trace[j].stops[k] == trace[i].stops[k]
    ensures |trace[i].files| < trace[i].stops[k] ==> |trace[j].files| < trace[j].stops[k]
    decreases j
  {
    hide *;
    OpenUntil(trace, i, j, k);
    if i < j {
      StepOf(c, steps, answers, trace, j - 1);
      StopsHold(c, steps, answers, trace, i, j - 1, k);
      StepKeepsBelow(c, steps[j - 1], answers[j - 1], trace[j - 1], trace[j], k);
    }
  }

  /** One more step. */
  lemma RunOn(c: Codec, steps: seq<Step>, n: nat, answers: seq<Answer>, trace: seq<Moment>, answer: Answer,
              after: Moment)
    requires n < |steps| && Run(c, steps[..n], answers, trace) && Kept(after)
             && Steps(c, steps[n], answer, trace[n], after)
    ensures Run(c, steps[..n + 1], answers + [answer], trace + [after])
  {
    hide Steps, Kept;
    var before, now := steps[..n], steps[..n + 1];
    forall i | 0 <= i < |now|
      ensures Steps(c, now[i], (answers + [answer])[i], (trace + [after])[i], (trace + [after])[i + 1])
    {
      if i < n {
        assert Steps(c, before[i], answers[i], trace[i], trace[i + 1]);
      }
    }
  }

  // ---- a run of the store ----

  ghost function Now(store: FieldLabStore): (m: Moment)
    reads store
  {
    Moment(store.files, if store.active then store.scopes + [store.stopAt] else [],
           if store.index.Some? then Some(|store.files.Keys - IndexNames(store.c, store.indexed)|) else None)
  }

  lemma KeptNow(store: FieldLabStore)
    requires store.Valid() && Nested(Now(store).stops)
    ensures Kept(Now(store))
  {
    if store.active {
      store.TailLength();
    }
  }

  /** The artifact would be one more, for the inventory and for the index. */
  ghost predicate IsNew(store: FieldLabStore, a: Artifact)
    reads store
  {
    store.c.sha(a.key) !in store.files && (store.index.Some? ==>
                                           store.c.sha(a.key) !in IndexNames(store.c, store.indexed))
  }

  /** What a save changes, when the index knows the names `indexed`. */
  ghost predicate Publishes(c: Codec, a: Artifact, r: Result<bool>, before: Moment, after: Moment, indexed: set<nat>) {
    && after.stops == before.stops && (after.tail.Some? <==> before.tail.Some?)
    && after.files == (if r == Success(true) then before.files[c.sha(a.key) := Envelope(a)] else before.files)
    && (before.tail.Some? ==>
          before.tail.value == |before.files.Keys - indexed| && after.tail.value == |after.files.Keys - indexed|)
    && (r == Success(true) ==>
          c.sha(a.key) !in before.files && (before.tail.Some? ==> c.sha(a.key) !in indexed))
  }

  lemma OneMoreUnindexed(files: map<nat, File>, indexed: set<nat>, name: nat, file: File)
    requires name !in files && name !in indexed
    ensures |files[name := file].Keys - indexed| == |files.Keys - indexed| + 1
  {
    assert files[name := file].Keys - indexed == (files.Keys - indexed) + {name};
  }

  /** A new artifact is one more that the index does not know. */
  lemma TailGrows(c: Codec, a: Artifact, r: Result<bool>, before: Moment, after: Moment, indexed: set<nat>)
    requires Publishes(c, a, r, before, after, indexed)
    ensures Leaves(c, a, r, before, after)
  {
    if r == Success(true) && before.tail.Some? {
      OneMoreUnindexed(before.files, indexed, c.sha(a.key), Envelope(a));
    }
  }

  lemma FaithfulNow(store: FieldLabStore)
    requires store.Valid()
    ensures store.c.FaithfulInventory(store.files)
  {
    store.ValidMeans();
  }

  /** In an open session, saving is admitted by the moment's own figures. */
  lemma OutcomeNow(store: FieldLabStore, a: Artifact)
    requires store.Valid() && store.active
    ensures store.c.FaithfulInventory(store.files)
    ensures store.Outcome(a) == Admitted(store.c, a, store.stopAt, Now(store))
    ensures store.Outcome(a) == Success(true) ==> IsNew(store, a)
  {
    store.ValidMeans();
    store.NamesMean();
    store.TailLength();
    store.OutcomeMeans(a);
    TailOnlyOfQuery(store.c, store.files, a, store.stopAt, store.count, |store.tail|, 0);
    AdmittedMeans(store.c, a, store.stopAt, Now(store));
    hide FieldLabStore.Valid, FieldLabStore.QueryExact, FieldLabStore.Outcome, Admission;
  }

  lemma OpenSteps(c: Codec, maxNames: nat, ok: bool, before: Moment, after: Moment)
    requires after.files == before.files && after.tail == before.tail
    requires after.stops == (if ok then before.stops + [Lowered(before.stops, CapacityPolicy(maxNames).stopAt)]
                             else before.stops)
    requires before.stops != [] ==> (ok <==> |before.files| <= maxNames)
    ensures Steps(c, Open(maxNames), Done(ok), before, after)
  {
    hide CapacityPolicy;
  }

  lemma NestedMore(stops: seq<nat>, own: nat)
    requires Nested(stops)
    ensures Nested(stops + [Lowered(stops, own)])
  {
    var more := stops + [Lowered(stops, own)];
    forall i, j | 0 <= i <= j < |more| ensures more[i] >= more[j] {
      if i < |stops| {
        assert stops[i] >= stops[|stops| - 1];
      }
    }
  }

  method TakeOpen(store: FieldLabStore, maxNames: nat) returns (answer: Answer)
    requires store.Valid() && Nested(Now(store).stops)
    modifies store
    ensures store.Valid() && Nested(Now(store).stops)
    ensures Steps(store.c, Open(maxNames), answer, old(Now(store)), Now(store))
  {
    store.ValidMeans();
    ghost var before := Now(store);
    hide Steps, Nested, CapacityPolicy, FieldLabStore.Valid, FieldLabStore.Openable, FieldLabStore.Unindexed;
    var ok := store.Enter(maxNames);
    answer := Done(ok);
    if ok {
      NestedMore(before.stops, CapacityPolicy(maxNames).stopAt);
      assert Now(store).stops == before.stops + [Lowered(before.stops, CapacityPolicy(maxNames).stopAt)];
    }
    OpenSteps(store.c, maxNames, ok, before, Now(store));
  }

  method TakeClose(store: FieldLabStore) returns (answer: Answer)
    requires store.Valid() && Nested(Now(store).stops)
    modifies store
    ensures store.Valid() && Nested(Now(store).stops) && Steps(store.c, Close, answer, old(Now(store)), Now(store))
  {
    ghost var before := Now(store);
    if !store.active {
      return Done(false);
    }
    var scopes := store.scopes;
    store.Exit();
    answer := Done(true);
    assert Now(store).stops == before.stops[..|before.stops| - 1] by {
      if scopes != [] {
        assert scopes == scopes[..|scopes| - 1] + [scopes[|scopes| - 1]];
      }
    }
  }

  lemma AddIs(c: Codec, a: Artifact, r: Result<bool>, before: Moment, after: Moment, indexed: set<nat>)
    requires Publishes(c, a, r, before, after, indexed) && c.FaithfulInventory(before.files)
    requires if before.stops == [] then r.Failure? else r == Admitted(c, a, before.stops[|before.stops| - 1], before)
    ensures Steps(c, Add(a), Saved(r), before, after)
  {
    TailGrows(c, a, r, before, after, indexed);
    hide Admitted, Publishes, Leaves;
  }

  method TakeAdd(store: FieldLabStore, a: Artifact) returns (answer: Answer)
    requires store.Valid() && Nested(Now(store).stops)
    modifies store
    ensures store.Valid() && Nested(Now(store).stops) && Steps(store.c, Add(a), answer, old(Now(store)), Now(store))
  {
    hide Steps, Nested, FieldLabStore.Valid, FieldLabStore.Outcome, Admitted, IndexNames, Leaves;
    ghost var before, indexed := Now(store), IndexNames(store.c, store.indexed);
    if !store.active {
      FaithfulNow(store);
      answer := Saved(Failure("field_lab_no_writer_scope"));
      AddIs(store.c, a, answer.r, before, before, indexed);
      return;
    }
    OutcomeNow(store, a);
    var r := store.Save(a);
    answer := Saved(r);
    AddIs(store.c, a, r, before, Now(store), indexed);
  }

  lemma NestedNow(store: FieldLabStore, a: Artifact)
    requires store.Valid() && store.active && store.c.FaithfulInventory(store.files)
    ensures var own := Lowered(Now(store).stops, CapacityPolicy(SAVE_CEILING).stopAt);
            && store.OwnOutcome(a) == (if |store.files| > SAVE_CEILING then Failure("field_lab_name_limit_exceeded")
                                       else Admitted(store.c, a, own, Now(store)))
            && (store.OwnOutcome(a) == Success(true) ==> IsNew(store, a))
  {
    store.ValidMeans();
    store.NamesMean();
    store.TailLength();
    store.NestedOutcome(a);
    var own := Lowered(Now(store).stops, CapacityPolicy(SAVE_CEILING).stopAt);
    TailOnlyOfQuery(store.c, store.files, a, own, store.count, |store.tail|, 0);
    AdmittedMeans(store.c, a, own, Now(store));
    hide FieldLabStore.Valid, FieldLabStore.OwnOutcome, FieldLabStore.QueryExact, FieldLabStore.IndexedNames,
         FieldLabStore.Unindexed, Admission, CapacityPolicy;
  }

  lemma AloneNow(store: FieldLabStore, a: Artifact)
    requires store.Valid() && !store.active && store.c.FaithfulInventory(store.files)
    ensures store.OwnOutcome(a) == Failure("field_lab_name_limit_exceeded")
            || store.OwnOutcome(a) == Admitted(store.c, a, CapacityPolicy(SAVE_CEILING).stopAt, Now(store))
    ensures store.OwnOutcome(a) == Success(true) ==> IsNew(store, a)
  {
    var own := CapacityPolicy(SAVE_CEILING).stopAt;
    TailOnlyOfQuery(store.c, store.files, a, own, |store.files|, store.Unindexed(), 0);
    AdmittedMeans(store.c, a, own, Now(store));
    hide FieldLabStore.Valid, FieldLabStore.IndexedNames, FieldLabStore.Unindexed, Admission, CapacityPolicy;
  }

  /** A save in a scope of its own is admitted by the moment's own figures, too, under the tighter of both stops. */
  lemma OwnOutcomeNow(store: FieldLabStore, a: Artifact)
    requires store.Valid()
    ensures store.c.FaithfulInventory(store.files)
    ensures store.OwnOutcome(a) == Failure("field_lab_name_limit_exceeded")
            || store.OwnOutcome(a)
               == Admitted(store.c, a, Lowered(Now(store).stops, CapacityPolicy(SAVE_CEILING).stopAt), Now(store))
    ensures store.OwnOutcome(a) == Success(true) ==> IsNew(store, a)
  {
    FaithfulNow(store);
    if store.active {
      NestedNow(store, a);
    } else {
      AloneNow(store, a);
    }
  }

  lemma PutIs(c: Codec, a: Artifact, r: Result<bool>, before: Moment, after: Moment, indexed: set<nat>)
    requires Publishes(c, a, r, before, after, indexed) && c.FaithfulInventory(before.files)
    requires r == Failure("field_lab_name_limit_exceeded")
             || r == Admitted(c, a, Lowered(before.stops, CapacityPolicy(SAVE_CEILING).stopAt), before)
    ensures Steps(c, Put(a), Saved(r), before, after)
  {
    TailGrows(c, a, r, before, after, indexed);
    hide Admitted, Publishes, Leaves, CapacityPolicy;
  }

  method TakePut(store: FieldLabStore, a: Artifact) returns (answer: Answer)
    requires store.Valid() && Nested(Now(store).stops)
    modifies store
    ensures store.Valid() && Nested(Now(store).stops) && Steps(store.c, Put(a), answer, old(Now(store)), Now(store))
  {
    hide Steps, Nested, FieldLabStore.Valid, FieldLabStore.OwnOutcome, Admitted, CapacityPolicy, IndexNames, Leaves;
    OwnOutcomeNow(store, a);
    ghost var before, indexed := Now(store), IndexNames(store.c, store.indexed);
    var r := store.SaveInOwnScope(a);
    answer := Saved(r);
    PutIs(store.c, a, r, before, Now(store), indexed);
  }

  lemma ReportSteps(c: Codec, maxNames: nat, start: Option<int>, end: Option<int>, answer: Answer, m: Moment)
    requires answer.Reported? && (answer.ok ==> (answer.selected.Some? <==> m.tail.Some?))
    requires answer.ok && answer.selected.Some? ==>
               Yields(c, m.files, answer.selected.value, ReportedNames(c, m.files, start, end))
    ensures Steps(c, Report(maxNames, start, end), answer, m, m)
  {
  }

  method TakeReport(store: FieldLabStore, maxNames: nat, start: Option<int>, end: Option<int>) returns (answer: Answer)
    requires store.Valid() && Nested(Now(store).stops)
    modifies store
    ensures store.Valid() && Nested(Now(store).stops)
    ensures Steps(store.c, Report(maxNames, start, end), answer, old(Now(store)), Now(store))
  {
    hide Steps, Nested, Yields, Reportable, ReportedNames, FieldLabStore.Valid, FieldLabStore.Queryable,
         FieldLabStore.Unindexed;
    ghost var before := Now(store);
    var ok, selected := store.PeriodicReport(maxNames, start, end);
    answer := Reported(ok, selected);
    ReportSteps(store.c, maxNames, start, end, answer, before);
  }

  lemma NothingUnindexed(files: map<nat, File>, indexed: set<nat>)
    ensures indexed == files.Keys ==> |files.Keys - indexed| == 0
  {
    if indexed == files.Keys {
      assert files.Keys - indexed == {};
    }
  }

  lemma RebuildSteps(c: Codec, maxNames: nat, force: bool, answer: Answer, before: Moment, after: Moment)
    requires answer.Done? && after == before.(tail := if answer.ok then Some(0) else before.tail)
    requires before.stops != [] ==> !answer.ok
    ensures Steps(c, Rebuild(maxNames, force), answer, before, after)
  {
  }

  method TakeRebuild(store: FieldLabStore, maxNames: nat, force: bool) returns (answer: Answer)
    requires store.Valid() && Nested(Now(store).stops)
    modifies store
    ensures store.Valid() && Nested(Now(store).stops)
    ensures Steps(store.c, Rebuild(maxNames, force), answer, old(Now(store)), Now(store))
  {
    hide FieldLabStore.Valid, Steps, Nested, Tables, InventoryRows, Buildable, BaseUsable, IndexNames;
    ghost var before := Now(store);
    var r := store.RebuildIndex(maxNames, force);
    answer := Done(r.Success?);
    NothingUnindexed(store.files, IndexNames(store.c, store.indexed));
    RebuildSteps(store.c, maxNames, force, answer, before, Now(store));
  }

  lemma RefreshSteps(c: Codec, counted: nat, maxNames: nat, threshold: nat, answer: Answer, before: Moment,
                     after: Moment)
    requires answer.Done? && after == before.(tail := if answer.ok then Some(0) else before.tail)
    ensures Steps(c, Refresh(counted, maxNames, threshold), answer, before, after)
  {
  }

  method TakeRefresh(store: FieldLabStore, counted: nat, maxNames: nat, threshold: nat) returns (answer: Answer)
    requires store.Valid() && Nested(Now(store).stops)
    modifies store
    ensures store.Valid() && Nested(Now(store).stops)
    ensures Steps(store.c, Refresh(counted, maxNames, threshold), answer, old(Now(store)), Now(store))
  {
    hide FieldLabStore.Valid, Steps, Nested, Tables, InventoryRows, IndexNames;
    ghost var before := Now(store);
    var r := store.RefreshIndex(counted, maxNames, threshold);
    answer := Done(r == Success(true));
    NothingUnindexed(store.files, IndexNames(store.c, store.indexed));
    RefreshSteps(store.c, counted, maxNames, threshold, answer, before, Now(store));
  }

  /** One step of a run. A scope is closed, and an artifact added to it, only when one is open. */
  method Take(store: FieldLabStore, step: Step) returns (answer: Answer)
    requires store.Valid() && Nested(Now(store).stops)
    modifies store
    ensures store.Valid() && Nested(Now(store).stops) && Steps(store.c, step, answer, old(Now(store)), Now(store))
  {
    hide *;
    match step
    case Open(maxNames) => answer := TakeOpen(store, maxNames);
    case Close => answer := TakeClose(store);
    case Put(a) => answer := TakePut(store, a);
    case Add(a) => answer := TakeAdd(store, a);
    case Report(maxNames, start, end) => answer := TakeReport(store, maxNames, start, end);
    case Rebuild(maxNames, force) => answer := TakeRebuild(store, maxNames, force);
    case Refresh(counted, maxNames, threshold) => answer := TakeRefresh(store, counted, maxNames, threshold);
  }

  /**
    Any sequence of steps, from any valid store. Through all of it, whatever was in the inventory stays there unchanged,
    what was reported as saved is in it, and no count reaches the stop of a scope that is open and that it was below.
   */
  method RunHistory(store: FieldLabStore, steps: seq<Step>) returns (answers: seq<Answer>, ghost trace: seq<Moment>)
    requires store.Valid() && Nested(Now(store).stops)
    modifies store
    ensures store.Valid() && Run(store.c, steps, answers, trace) && trace[0] == old(Now(store))
            && trace[|steps|] == Now(store)
    ensures forall i, j, n :: 0 <= i <= j <= |steps| && n in trace[i].files ==>
              n in trace[j].files && trace[j].files[n] == trace[i].files[n]
    ensures forall i, j, k :: 0 <= i <= j <= |steps| && 0 <= k && StaysOpen(trace, i, j, k)
                              && |trace[i].files| < trace[i].stops[k] ==>
              |trace[j].files| < trace[j].stops[k] == trace[i].stops[k]
  {
    KeptNow(store);
    answers, trace := [], [Now(store)];
    for n := 0 to |steps|
      invariant store.Valid() && Run(store.c, steps[..n], answers, trace) && trace[0] == old(Now(store))
                && trace[n] == Now(store)
    {
      hide *;
      var answer := Take(store, steps[n]);
      KeptNow(store);
      RunOn(store.c, steps, n, answers, trace, answer, Now(store));
      answers, trace := answers + [answer], trace + [Now(store)];
    }
    assert steps[..|steps|] == steps;
    hide Run, StaysOpen;
    forall i, j, n | 0 <= i <= j <= |steps| && n in trace[i].files
      ensures n in trace[j].files && trace[j].files[n] == trace[i].files[n]
    {
      FilesStay(store.c, steps, answers, trace, i, j, n);
    }
    forall i, j, k | 0 <= i <= j <= |steps| && 0 <= k && StaysOpen(trace, i, j, k)
        && |trace[i].files| < trace[i].stops[k]
      ensures |trace[j].files| < trace[j].stops[k] == trace[i].stops[k]
    {
      StopsHold(store.c, steps, answers, trace, i, j, k);
    }
  }

  // ---- a full tail ----

  lemma NothingIsBuildable(c: Codec, maxNames: nat)
    ensures Buildable(c, map[], maxNames)
  {
  }

  lemma NamesOfNothing(c: Codec, rows: seq<Metadata>)
    ensures IndexNames(c, rows) == {} <==> rows == []
  {
    if rows != [] {
      assert NameKeys(c, rows)[0] in IndexNames(c, rows);
    }
  }

  /** An index over nothing leaves the whole tail to be filled. */
  lemma EmptyIndexOpens(store: FieldLabStore, maxNames: nat)
    requires store.files == map[] && store.sidecars == map[] && store.IndexedNames() == {}
    ensures store.Openable(maxNames)
  {
    NamesOfNothing(store.c, store.indexed);
  }

  /** A new store, its first index built over nothing, and the scope of a cycle opened over that. */
  method OpenEmpty(c: Codec, maxArtifacts: nat) returns (store: FieldLabStore)
    requires c.Valid()
    ensures fresh(store) && store.c == c && store.Valid() && store.active && store.index.Some?
            && store.IndexedNames() == {}
    ensures store.files == map[] && store.stopAt == CapacityPolicy(maxArtifacts).stopAt
  {
    store := new FieldLabStore(c);
    NothingIsBuildable(c, maxArtifacts);
    hide *;
    var built := store.RebuildIndex(maxArtifacts, true);
    EmptyIndexOpens(store, maxArtifacts);
    var ok := store.Enter(maxArtifacts);
  }

  lemma OpenedEmpty(store: FieldLabStore)
    requires store.Valid() && store.active && store.index.Some? && store.IndexedNames() == {}
    ensures store.query && store.count == |store.tail| == |store.files|
  {
    store.TailLength();
    assert store.files.Keys - store.IndexedNames() == store.files.Keys;
  }

  lemma TailBindsFirst(maxArtifacts: nat)
    requires CapacityPolicy(maxArtifacts).stopAt > TAIL_LIMIT + 1
    ensures Room(CapacityPolicy(maxArtifacts).stopAt, 0, true, 0) == TAIL_LIMIT
            && Remaining(maxArtifacts, TAIL_LIMIT) > 0
  {
  }

  /**
    A session whose tail is full is reached from a new store: its first index is built over nothing, and then as many
    artifacts are saved as the tail can hold. What it reports as `remaining` is still positive, and the next new
    artifact is refused.
   */
  method FillTail(c: Codec, maxArtifacts: nat, artifacts: seq<Artifact>) returns (store: FieldLabStore, r: Result<bool>)
    requires c.Valid() && CapacityPolicy(maxArtifacts).stopAt > TAIL_LIMIT + 1
    requires |artifacts| == TAIL_LIMIT + 1 && forall i :: 0 <= i < |artifacts| ==>
               c.size(artifacts[i]) <= DOCUMENT_LIMIT
    requires forall i, j :: 0 <= i < j < |artifacts| ==> c.sha(artifacts[i].key) != c.sha(artifacts[j].key)
    ensures store.Valid() && store.active && store.query && |store.tail| == TAIL_LIMIT
    ensures Remaining(maxArtifacts, store.count) > 0 && r == Failure("field_lab_index_refresh_required")
  {
    store := OpenEmpty(c, maxArtifacts);
    OpenedEmpty(store);
    TailBindsFirst(maxArtifacts);
    hide *;
    var admitted := store.SaveMany(artifacts);
    OpenedEmpty(store);
    store.FullTailAdmitsNothing(artifacts[TAIL_LIMIT], maxArtifacts);
    r := store.Save(artifacts[TAIL_LIMIT]);
    OpenedEmpty(store);
  }
}
