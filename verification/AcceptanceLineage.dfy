/**
  Accepted decisions: one document per decision holds its context, the selections and missions committed for it,
  and the acceptance requests that led to them. The store lock serializes writers, so a commit sees one state.
 */
module AcceptanceLineage {
  import opened Wrappers

  type Id = string

  datatype Source = PrimaryRecommendation | Alternative | OtherEvaluatedTarget | Declined

  datatype Selection = Selection(id: Id, decisionId: Id, source: Source, catalogKey: Option<string>, selectedAt: int,
                                 imagingFieldId: Option<string>, intentId: Option<string>)

  datatype Mission = Mission(id: Id, decisionId: Id, selectionId: Id, imagingFieldId: Option<string>,
                             intentId: Option<string>, plan: string)

  datatype Mapping = Mapping(selectionId: Id, missionId: Option<Id>)

  datatype Context = Context(decisionId: Id, payload: string)

  /** A decision document: its three tables are objects keyed by identity. */
  datatype Aggregate = Aggregate(context: Context, selections: map<Id, Selection>, missions: map<Id, Mission>,
                                 requests: map<Id, Mapping>)

  type Documents = map<Id, Aggregate>

  type Acceptance = (Selection, Option<Mission>)

  // ---- what a document that decodes satisfies ----

  predicate MissionFits(a: Aggregate, m: Mission) {
    && m.decisionId == a.context.decisionId
    && m.selectionId in a.selections && a.selections[m.selectionId].source != Declined
  }

  /** The consistency that only recent documents, and every write, must have. */
  predicate MissionConsistent(a: Aggregate, m: Mission) {
    m.selectionId in a.selections ==>
      && m.imagingFieldId == a.selections[m.selectionId].imagingFieldId
      && m.intentId == a.selections[m.selectionId].intentId
  }

  /** A mapping names a selection and a mission that were stored together. */
  predicate MappingFits(a: Aggregate, q: Mapping) {
    && q.selectionId in a.selections
    && match q.missionId
       case None => a.selections[q.selectionId].source == Declined
       case Some(m) => m in a.missions && a.missions[m].selectionId == q.selectionId
                       && a.selections[q.selectionId].source != Declined
  }

  predicate Wellformed(a: Aggregate) {
    && (forall s :: s in a.selections ==> a.selections[s].id == s && a.selections[s].decisionId == a.context.decisionId)
    && (forall m :: m in a.missions ==> a.missions[m].id == m && MissionFits(a, a.missions[m]))
    && (forall q :: q in a.requests ==> MappingFits(a, a.requests[q]))
  }

  predicate Consistent(a: Aggregate) {
    forall m :: m in a.missions ==> MissionConsistent(a, a.missions[m])
  }

  // ---- identities across documents ----

  function SelectionHolders(d: Documents, s: Id): set<Id> {
    set k | k in d && s in d[k].selections
  }

  function MissionHolders(d: Documents, m: Id): set<Id> {
    set k | k in d && m in d[k].missions
  }

  function RequestHolders(d: Documents, q: Id): set<Id> {
    set k | k in d && q in d[k].requests
  }

  ghost predicate AtMostOne(s: set<Id>) {
    forall x, y :: x in s && y in s ==> x == y
  }

  ghost predicate UniqueIdentities(d: Documents) {
    && (forall i :: AtMostOne(SelectionHolders(d, i)))
    && (forall i :: AtMostOne(MissionHolders(d, i)))
    && (forall i :: AtMostOne(RequestHolders(d, i)))
  }

  /** Every document decodes, under its own name. */
  ghost predicate Readable(d: Documents) {
    forall k :: k in d ==> d[k].context.decisionId == k && Wellformed(d[k])
  }

  /** What commits alone can produce; documents that were damaged from outside may share identities. */
  ghost predicate Lineage(d: Documents) {
    Readable(d) && UniqueIdentities(d)
  }

  /** Documents only grow: nothing stored is changed, moved or removed. */
  ghost predicate Grows(before: Documents, after: Documents) {
    forall k :: k in before ==> k in after && Extends(before[k], after[k])
  }

  ghost predicate Extends(a: Aggregate, b: Aggregate) {
    && b.context == a.context
    && (forall s :: s in a.selections ==> s in b.selections && b.selections[s] == a.selections[s])
    && (forall m :: m in a.missions ==> m in b.missions && b.missions[m] == a.missions[m])
    && (forall q :: q in a.requests ==> q in b.requests && b.requests[q] == a.requests[q])
  }

  lemma GrowsTransitive(a: Documents, b: Documents, c: Documents)
    requires Grows(a, b) && Grows(b, c)
    ensures Grows(a, c)
  {
    forall k | k in a ensures k in c && Extends(a[k], c[k]) {
      assert Extends(a[k], b[k]) && Extends(b[k], c[k]);
    }
  }

  lemma SizeOne(s: set<Id>)
    ensures |s| <= 1 <==> AtMostOne(s)
  {
    if |s| <= 1 {
      forall x, y | x in s && y in s ensures x == y {
        assert |s - {x}| == 0;
        assert y !in s - {x};
      }
    } else {
      var x :| x in s;
      assert |s - {x}| > 0;
      var y :| y in s - {x};
      assert x in s && y in s && x != y;
    }
  }

  // ---- a commit ----

  datatype Commit = Commit(selection: Selection, mission: Option<Mission>, requestId: Option<Id>)

  /** The checks before the lock is taken. */
  function Preflight(c: Commit): Option<string> {
    var s := c.selection;
    if s.source == Declined && c.mission.Some? then Some("declined_selection_mission_conflict")
    else if s.source != Declined && c.mission.None? then Some("mission_required")
    else if c.mission.Some? && (c.mission.value.decisionId != s.decisionId || c.mission.value.selectionId != s.id) then
      Some("mission_provenance_mismatch")
    else if c.mission.Some? && c.mission.value.intentId != s.intentId then Some("mission_acquisition_intent_mismatch")
    else None
  }

  predicate SamePayload(a: Selection, b: Selection) {
    && a.decisionId == b.decisionId && a.source == b.source && a.catalogKey == b.catalogKey
    && a.selectedAt == b.selectedAt && a.intentId == b.intentId
  }

  /** The pair a recorded request led to. */
  ghost function Canonical(a: Aggregate, q: Id): Acceptance
    requires Wellformed(a) && q in a.requests
  {
    var mapping := a.requests[q];
    assert MappingFits(a, mapping);
    (a.selections[mapping.selectionId],
     if mapping.missionId.None? then None else Some(a.missions[mapping.missionId.value]))
  }

  /** The commit's pair is stored in its own document and nowhere else, or neither half of it is, anywhere. */
  ghost predicate Stored(d: Documents, c: Commit) {
    var k := c.selection.decisionId;
    && k in d && SelectionHolders(d, c.selection.id) == {k} && d[k].selections[c.selection.id] == c.selection
    && (c.mission.Some? ==> MissionHolders(d, c.mission.value.id) == {k}
                            && d[k].missions[c.mission.value.id] == c.mission.value)
  }

  ghost predicate Unused(d: Documents, c: Commit) {
    && SelectionHolders(d, c.selection.id) == {}
    && (c.mission.Some? ==> MissionHolders(d, c.mission.value.id) == {})
  }

  ghost predicate Recorded(d: Documents, q: Option<Id>) {
    q.Some? && RequestHolders(d, q.value) != {}
  }

  function Appended(a: Aggregate, c: Commit): Aggregate {
    var missions := if c.mission.None? then a.missions else a.missions[c.mission.value.id := c.mission.value];
    var mapping := Mapping(c.selection.id, if c.mission.None? then None else Some(c.mission.value.id));
    var requests := if c.requestId.None? then a.requests else a.requests[c.requestId.value := mapping];
    Aggregate(a.context, a.selections[c.selection.id := c.selection], missions, requests)
  }

  /** What a new pair must satisfy to be written into its document. */
  ghost predicate Writable(d: Documents, c: Commit) {
    && c.selection.decisionId in d && Unused(d, c)
    && Consistent(d[c.selection.decisionId])
    && (c.mission.Some? ==> c.mission.value.imagingFieldId == c.selection.imagingFieldId)
  }

  lemma AppendedIsWellformed(d: Documents, c: Commit)
    requires Readable(d) && Preflight(c) == None && c.selection.decisionId in d && Unused(d, c)
             && !Recorded(d, c.requestId)
    ensures var a := d[c.selection.decisionId];
            && Wellformed(Appended(a, c)) && Extends(a, Appended(a, c))
            && (Consistent(Appended(a, c)) <==> Writable(d, c))
  {
    var k := c.selection.decisionId;
    var a := d[k];
    var b := Appended(a, c);
    assert k !in SelectionHolders(d, c.selection.id);
    assert c.mission.Some? ==> k !in MissionHolders(d, c.mission.value.id);
    assert c.requestId.Some? ==> k !in RequestHolders(d, c.requestId.value);
    forall m | m in b.missions ensures b.missions[m].id == m && MissionFits(b, b.missions[m]) {
      assert m in a.missions ==> MissionFits(a, a.missions[m]);
    }
    forall q | q in b.requests ensures MappingFits(b, b.requests[q]) {
      assert q in a.requests ==> MappingFits(a, a.requests[q]);
    }
    forall m | m in a.missions ensures MissionConsistent(b, b.missions[m]) <==> MissionConsistent(a, a.missions[m]) {
      assert MissionFits(a, a.missions[m]);
    }
    assert c.mission.Some? ==> c.mission.value.id in b.missions;
  }

  /** Replacing one document changes who holds an identity only as far as that document does. */
  lemma HoldersAfter(d: Documents, k: Id, b: Aggregate, i: Id)
    ensures SelectionHolders(d[k := b], i) == SelectionHolders(d, i) - {k} + if i in b.selections then {k} else {}
    ensures MissionHolders(d[k := b], i) == MissionHolders(d, i) - {k} + if i in b.missions then {k} else {}
    ensures RequestHolders(d[k := b], i) == RequestHolders(d, i) - {k} + if i in b.requests then {k} else {}
  {
  }

  lemma StillUnique(d: Documents, k: Id, b: Aggregate)
    requires UniqueIdentities(d)
    requires forall i :: i in b.selections ==> SelectionHolders(d, i) <= {k}
    requires forall i :: i in b.missions ==> MissionHolders(d, i) <= {k}
    requires forall i :: i in b.requests ==> RequestHolders(d, i) <= {k}
    ensures UniqueIdentities(d[k := b])
  {
    var e := d[k := b];
    hide SelectionHolders, MissionHolders, RequestHolders;
    forall i ensures AtMostOne(SelectionHolders(e, i)) {
      HoldersAfter(d, k, b, i);
      assert AtMostOne(SelectionHolders(d, i));
    }
    forall i ensures AtMostOne(MissionHolders(e, i)) {
      HoldersAfter(d, k, b, i);
      assert AtMostOne(MissionHolders(d, i));
    }
    forall i ensures AtMostOne(RequestHolders(e, i)) {
      HoldersAfter(d, k, b, i);
      assert AtMostOne(RequestHolders(d, i));
    }
  }

  lemma AppendKeepsLineage(d: Documents, c: Commit)
    requires Readable(d) && Preflight(c) == None && Writable(d, c) && !Recorded(d, c.requestId)
    ensures var e := d[c.selection.decisionId := Appended(d[c.selection.decisionId], c)];
            && Readable(e) && Grows(d, e) && Stored(e, c) && (Lineage(d) ==> Lineage(e))
  {
    var k := c.selection.decisionId;
    var b := Appended(d[k], c);
    AppendedIsWellformed(d, c);
    AppendedIsStored(d, c);
    if Lineage(d) {
      OnlyHere(d, c);
      StillUnique(d, k, b);
    }
    hide Wellformed, Extends, UniqueIdentities, Stored;
    assert forall j :: j in d ==> Extends(d[j], d[j]);
  }

  lemma AppendedIsStored(d: Documents, c: Commit)
    requires c.selection.decisionId in d && Unused(d, c)
    ensures Stored(d[c.selection.decisionId := Appended(d[c.selection.decisionId], c)], c)
  {
    var k := c.selection.decisionId;
    HoldersAfter(d, k, Appended(d[k], c), c.selection.id);
    if c.mission.Some? {
      HoldersAfter(d, k, Appended(d[k], c), c.mission.value.id);
    }
  }

  lemma OnlyHere(d: Documents, c: Commit)
    requires Lineage(d) && Writable(d, c) && !Recorded(d, c.requestId)
    ensures var k := c.selection.decisionId;
            var b := Appended(d[k], c);
            && (forall i :: i in b.selections ==> SelectionHolders(d, i) <= {k})
            && (forall i :: i in b.missions ==> MissionHolders(d, i) <= {k})
            && (forall i :: i in b.requests ==> RequestHolders(d, i) <= {k})
  {
    hide Wellformed;
    var k := c.selection.decisionId;
    var b := Appended(d[k], c);
    forall i | i in b.selections ensures SelectionHolders(d, i) <= {k} {
      assert AtMostOne(SelectionHolders(d, i));
      assert i in d[k].selections ==> k in SelectionHolders(d, i);
    }
    forall i | i in b.missions ensures MissionHolders(d, i) <= {k} {
      assert AtMostOne(MissionHolders(d, i));
      assert i in d[k].missions ==> k in MissionHolders(d, i);
    }
    forall i | i in b.requests ensures RequestHolders(d, i) <= {k} {
      assert AtMostOne(RequestHolders(d, i));
      assert i in d[k].requests ==> k in RequestHolders(d, i);
    }
  }

  predicate SelectionClash(d: Documents, c: Commit)
    requires c.selection.decisionId in d
  {
    var h := SelectionHolders(d, c.selection.id);
    h != {} && (h != {c.selection.decisionId} || d[c.selection.decisionId].selections[c.selection.id] != c.selection)
  }

  predicate MissionClash(d: Documents, c: Commit)
    requires c.selection.decisionId in d
  {
    c.mission.Some? &&
    var h := MissionHolders(d, c.mission.value.id);
    h != {} && (h != {c.selection.decisionId}
                || d[c.selection.decisionId].missions[c.mission.value.id] != c.mission.value)
  }

  /** Why a commit that is neither stored nor unused is refused, in the order of the checks. */
  ghost function Refusal(d: Documents, c: Commit): string {
    if c.selection.decisionId !in d then "decision_context_not_found"
    else if SelectionClash(d, c) then "selection_id_conflict"
    else if MissionClash(d, c) then "mission_id_conflict"
    else "acceptance_lineage_conflict"
  }

  lemma GrowsReflexive(d: Documents)
    ensures Grows(d, d)
  {
  }

  lemma StoredIsUsed(d: Documents, c: Commit)
    ensures Stored(d, c) ==> !Unused(d, c)
    ensures Writable(d, c) ==> Unused(d, c) && c.selection.decisionId in d
  {
    if Stored(d, c) {
      assert c.selection.decisionId in SelectionHolders(d, c.selection.id);
    }
  }

  lemma NoDocument(d: Documents, c: Commit)
    requires c.selection.decisionId !in d
    ensures !Stored(d, c) && !Writable(d, c) && Refusal(d, c) == "decision_context_not_found"
  {
  }

  lemma HolderFacts(d: Documents, c: Commit, k: Id)
    requires k in d
    ensures k in SelectionHolders(d, c.selection.id) <==> c.selection.id in d[k].selections
    ensures c.mission.Some? ==> (k in MissionHolders(d, c.mission.value.id) <==> c.mission.value.id in d[k].missions)
  {
  }

  lemma StillStored(before: Documents, after: Documents, c: Commit)
    requires Lineage(after) && Grows(before, after) && Stored(before, c)
    ensures Stored(after, c)
  {
    var k := c.selection.decisionId;
    assert Extends(before[k], after[k]);
    HolderFacts(before, c, k);
    HolderFacts(after, c, k);
    assert AtMostOne(SelectionHolders(after, c.selection.id));
    assert SelectionHolders(after, c.selection.id) == {k};
    if c.mission.Some? {
      assert AtMostOne(MissionHolders(after, c.mission.value.id));
      assert MissionHolders(after, c.mission.value.id) == {k};
    }
  }

  lemma AppendedCanonical(d: Documents, c: Commit, stored: Documents, grown: Documents)
    requires Lineage(d) && Lineage(stored) && Lineage(grown) && Preflight(c).None?
    requires c.requestId.Some? && Writable(d, c) && !Recorded(d, c.requestId)
    requires stored == d[c.selection.decisionId := Appended(d[c.selection.decisionId], c)] && Grows(stored, grown)
    ensures Recorded(grown, c.requestId) && RequestHolders(grown, c.requestId.value) == {c.selection.decisionId}
    ensures Canonical(grown[c.selection.decisionId], c.requestId.value) == (c.selection, c.mission)
    ensures Stored(grown, c)
  {
    var k, q := c.selection.decisionId, c.requestId.value;
    AppendedIsStored(d, c);
    StillStored(stored, grown, c);
    hide Stored;
    assert Extends(stored[k], grown[k]);
    assert q in stored[k].requests;
    assert k in RequestHolders(grown, q) && AtMostOne(RequestHolders(grown, q));
    assert c.selection.id in stored[k].selections && stored[k].selections[c.selection.id] == c.selection;
    assert c.mission.Some? ==> c.mission.value.id in stored[k].missions;
  }

  /** No document maps the request to the selection. */
  ghost predicate Unnamed(d: Documents, q: Id, s: Id) {
    forall k :: k in d && q in d[k].requests ==> d[k].requests[q].selectionId != s
  }

  /** A request never comes to name a selection that was stored before the request was recorded. */
  ghost predicate KeepsUnnamed(before: Documents, after: Documents) {
    forall q, s :: SelectionHolders(before, s) != {} && Unnamed(before, q, s) ==> Unnamed(after, q, s)
  }

  lemma AppendKeepsUnnamed(d: Documents, c: Commit)
    requires Writable(d, c)
    ensures KeepsUnnamed(d, d[c.selection.decisionId := Appended(d[c.selection.decisionId], c)])
  {
  }

  lemma KeepsUnnamedTransitive(a: Documents, b: Documents, c: Documents)
    requires Grows(a, b) && KeepsUnnamed(a, b) && KeepsUnnamed(b, c)
    ensures KeepsUnnamed(a, c)
  {
    forall q, s | SelectionHolders(a, s) != {} && Unnamed(a, q, s) ensures Unnamed(c, q, s) {
      var k :| k in SelectionHolders(a, s);
      assert Extends(a[k], b[k]);
      assert k in SelectionHolders(b, s);
    }
  }

  /** A recorded request keeps its pair. */
  lemma CanonicalStays(before: Documents, after: Documents, q: Id, k: Id)
    requires Lineage(before) && Lineage(after) && Grows(before, after) && k in RequestHolders(before, q)
    ensures k in RequestHolders(after, q) && Canonical(after[k], q) == Canonical(before[k], q)
  {
    assert Extends(before[k], after[k]);
    assert MappingFits(before[k], before[k].requests[q]);
  }

  /** The answer to a commit that carries a request, and what it leaves. */
  ghost predicate Answered(d: Documents, c: Commit, r: Result<Acceptance>, after: Documents)
    requires c.requestId.Some? && Lineage(d)
  {
    if Preflight(c).Some? then r.Failure?
    else if Recorded(d, c.requestId) then
      forall k :: k in RequestHolders(d, c.requestId.value) ==>
        var canonical := Canonical(d[k], c.requestId.value);
        r == if SamePayload(canonical.0, c.selection) then Success(canonical)
            else Failure("acceptance_request_conflict")
    else
      && (r.Success? <==> Stored(d, c) || Writable(d, c)) && (r.Success? ==> r.value == (c.selection, c.mission))
      && after == if Writable(d, c) then d[c.selection.decisionId := Appended(d[c.selection.decisionId], c)] else d
  }

  lemma StillUnnamed(before: Documents, grown: Documents, c: Commit)
    requires KeepsUnnamed(before, grown) && Stored(before, c) && c.requestId.Some? && !Recorded(before, c.requestId)
    ensures Unnamed(grown, c.requestId.value, c.selection.id)
  {
    assert c.selection.decisionId in SelectionHolders(before, c.selection.id);
    forall k | k in before ensures c.requestId.value !in before[k].requests {
      assert k !in RequestHolders(before, c.requestId.value);
    }
  }

  lemma NamesAnother(d: Documents, q: Id, s: Id, k: Id)
    requires Lineage(d) && Unnamed(d, q, s) && k in RequestHolders(d, q)
    ensures Canonical(d[k], q).0.id != s
  {
    assert MappingFits(d[k], d[k].requests[q]);
  }

  /** The retry of a request that had been recorded before its first attempt. */
  lemma RecordedIsRepeated(before: Documents, first: Commit, a: Result<Acceptance>, stored: Documents, grown: Documents,
                           second: Commit, b: Result<Acceptance>, after: Documents)
    requires Lineage(before) && Lineage(grown) && Grows(before, grown)
    requires first.requestId.Some? && second.requestId == first.requestId && Recorded(before, first.requestId)
             && a.Success?
    requires Preflight(second).None? && SamePayload(first.selection, second.selection)
    requires Answered(before, first, a, stored) && Answered(grown, second, b, after)
    ensures a == b
  {
    var q := first.requestId.value;
    var k :| k in RequestHolders(before, q);
    CanonicalStays(before, grown, q, k);
    hide Lineage, Grows, Canonical;
  }

  /** The retry of a request whose pair had been stored without it. */
  lemma StoredIsNotRepeated(before: Documents, first: Commit, a: Result<Acceptance>, stored: Documents,
                            grown: Documents, second: Commit, b: Result<Acceptance>, after: Documents)
    requires Lineage(before) && Lineage(grown) && KeepsUnnamed(before, grown)
    requires first.requestId.Some? && second.requestId == first.requestId && !Recorded(before, first.requestId)
    requires Stored(before, first) && second.selection.id != first.selection.id && a.Success?
    requires Preflight(second).None? && Answered(before, first, a, stored) && Answered(grown, second, b, after)
    ensures a != b
  {
    var q, s := first.requestId.value, first.selection.id;
    StillUnnamed(before, grown, first);
    if Recorded(grown, second.requestId) {
      var k :| k in RequestHolders(grown, q);
      NamesAnother(grown, q, s, k);
    }
    hide Lineage, KeepsUnnamed, Stored, Writable;
  }

  /** The retry of a request that its first attempt recorded. */
  lemma AppendedIsRepeated(before: Documents, first: Commit, a: Result<Acceptance>, stored: Documents, grown: Documents,
                           second: Commit, b: Result<Acceptance>, after: Documents)
    requires Lineage(before) && Lineage(stored) && Lineage(grown) && Grows(stored, grown)
    requires first.requestId.Some? && second.requestId == first.requestId && !Recorded(before, first.requestId)
    requires Writable(before, first) && Preflight(first).None?
    requires Preflight(second).None? && SamePayload(first.selection, second.selection)
    requires Answered(before, first, a, stored) && Answered(grown, second, b, after)
    ensures a == b == Success((first.selection, first.mission)) && Stored(grown, first)
  {
    AppendedCanonical(before, first, stored, grown);
    hide Lineage, Grows, Stored, Writable;
  }

  lemma AttemptsAgree(before: Documents, first: Commit, a: Result<Acceptance>, stored: Documents, grown: Documents,
                      second: Commit, b: Result<Acceptance>, after: Documents)
    requires Lineage(before) && Lineage(stored) && Lineage(grown) && Lineage(after)
    requires Grows(before, stored) && Grows(stored, grown) && Grows(grown, after) && KeepsUnnamed(stored, grown)
    requires first.requestId.Some? && second.requestId == first.requestId
    requires Preflight(second).None? && SamePayload(first.selection, second.selection)
    requires Answered(before, first, a, stored) && Answered(grown, second, b, after)
    ensures !Recorded(before, first.requestId) && Writable(before, first) && Preflight(first).None? ==>
              a == b == Success((first.selection, first.mission)) && Stored(after, first)
    ensures a.Success? && second.selection.id != first.selection.id ==>
              (a == b <==> Recorded(before, first.requestId) || !Stored(before, first))
  {
    StoredIsUsed(before, first);
    GrowsTransitive(before, stored, grown);
    hide Lineage, Grows, KeepsUnnamed, Stored, Writable, Recorded;
    if Preflight(first).None? {
      if Recorded(before, first.requestId) {
        if a.Success? {
          RecordedIsRepeated(before, first, a, stored, grown, second, b, after);
        }
      } else if Writable(before, first) {
        AppendedIsRepeated(before, first, a, stored, grown, second, b, after);
        StillStored(grown, after, first);
      } else if a.Success? && second.selection.id != first.selection.id {
        StoredIsNotRepeated(before, first, a, stored, grown, second, b, after);
      }
    }
  }

  class DecisionAcceptanceStore {
    var documents: Documents

    ghost predicate Valid()
      reads this
    {
      Lineage(documents)
    }

    constructor ()
      ensures Valid() && documents == map[]
    {
      documents := map[];
    }

    /** `_write`: the document is validated strictly before it replaces the file. */
    method Write(a: Aggregate) returns (r: Result<()>)
      modifies this
      ensures r.Success? <==> Wellformed(a) && Consistent(a)
      ensures documents == if r.Success? then old(documents)[a.context.decisionId := a] else old(documents)
      ensures r.Failure? ==>
                if Wellformed(a) then r.error in {"mission_imaging_field_mismatch",
                                                  "mission_acquisition_intent_mismatch"}
                else r.error == "invalid_lineage_aggregate"
    {
      if !Wellformed(a) {
        return Failure("invalid_lineage_aggregate");
      }
      var rest := a.missions.Keys;
      while rest != {}
        invariant rest <= a.missions.Keys && documents == old(documents)
        invariant forall m :: m in a.missions && m !in rest ==> MissionConsistent(a, a.missions[m])
        decreases |rest|
      {
        var m :| m in rest;
        assert MissionFits(a, a.missions[m]);
        var mission, selection := a.missions[m], a.selections[a.missions[m].selectionId];
        if mission.imagingFieldId != selection.imagingFieldId {
          return Failure("mission_imaging_field_mismatch");
        }
        if mission.intentId != selection.intentId {
          return Failure("mission_acquisition_intent_mismatch");
        }
        rest := rest - {m};
      }
      documents := documents[a.context.decisionId := a];
      r := Success(());
    }

    /** `create_context`. */
    method CreateContext(context: Context) returns (r: Result<()>)
      requires Valid()
      modifies this
      ensures Valid() && Grows(old(documents), documents)
      ensures r.Success? <==> context.decisionId in old(documents) ==>
                old(documents)[context.decisionId].context == context
      ensures r.Success? ==> context.decisionId in documents && documents[context.decisionId].context == context
      ensures documents == if context.decisionId in old(documents) then old(documents)
                           else old(documents)[context.decisionId := Aggregate(context, map[], map[], map[])]
    {
      if context.decisionId in documents {
        return if documents[context.decisionId].context == context then Success(())
               else Failure("decision_context_conflict");
      }
      ghost var before := documents;
      var empty := Aggregate(context, map[], map[], map[]);
      r := Write(empty);
      StillUnique(before, context.decisionId, empty);
    }

    /** The answer for a request that some document records. */
    method Lookup(q: Id) returns (r: Result<Option<Acceptance>>)
      requires Readable(documents)
      ensures r.Success? <==> AtMostOne(RequestHolders(documents, q))
      ensures r.Failure? ==> r.error == "acceptance_request_conflict"
      ensures r.Success? ==> (r.value.Some? <==> RequestHolders(documents, q) != {})
      ensures r.Success? && r.value.Some? ==> forall k :: k in RequestHolders(documents, q) ==>
                r.value.value == Canonical(documents[k], q)
    {
      var matches := RequestHolders(documents, q);
      SizeOne(matches);
      if |matches| > 1 {
        return Failure("acceptance_request_conflict");
      }
      if matches == {} {
        return Success(None);
      }
      var k :| k in matches;
      assert Wellformed(documents[k]) && AtMostOne(matches);
      var a := documents[k];
      var mapping := a.requests[q];
      assert MappingFits(a, mapping);
      var mission := if mapping.missionId.None? then None else Some(a.missions[mapping.missionId.value]);
      r := Success(Some((a.selections[mapping.selectionId], mission)));
    }

    /**
      `commit_selection_and_mission`. A recorded request is answered with its canonical pair and writes nothing;
      otherwise the pair is accepted exactly when both halves are already stored here, or neither is stored
      anywhere and the grown document is consistent. Only the latter writes, and it appends.
     */
    method CommitSelectionAndMission(c: Commit) returns (r: Result<Acceptance>)
      requires Readable(documents)
      modifies this
      ensures Readable(documents) && Grows(old(documents), documents) && (old(Valid()) ==> Valid())
      ensures r.Failure? ==> documents == old(documents)
      ensures Preflight(c).Some? ==> r == Failure(Preflight(c).value)
      ensures Preflight(c).None? && Recorded(old(documents), c.requestId) ==>
                && documents == old(documents)
                && (!AtMostOne(RequestHolders(old(documents), c.requestId.value)) ==>
                    r == Failure("acceptance_request_conflict"))
                && (AtMostOne(RequestHolders(old(documents), c.requestId.value)) ==>
                      forall k :: k in RequestHolders(old(documents), c.requestId.value) ==>
                        var canonical := Canonical(old(documents)[k], c.requestId.value);
                        r == if SamePayload(canonical.0, c.selection) then Success(canonical)
                            else Failure("acceptance_request_conflict"))
      ensures Preflight(c).None? && !Recorded(old(documents), c.requestId) ==>
                && (r.Success? <==> Stored(old(documents), c) || Writable(old(documents), c))
                && (r.Success? ==> r.value == (c.selection, c.mission) && Stored(documents, c))
                && documents == (if Writable(old(documents), c)
                                 then old(documents)[c.selection.decisionId :=
                                                     Appended(old(documents)[c.selection.decisionId], c)]
                                 else old(documents))
                && (r.Failure? ==> r.error == Refusal(old(documents), c)
                                   || (Unused(old(documents), c) && c.selection.decisionId in old(documents)))
    {
      GrowsReflexive(documents);
      var refused := Preflight(c);
      if refused.Some? {
        return Failure(refused.value);
      }
      if c.requestId.Some? {
        var canonical := Lookup(c.requestId.value);
        if canonical.Failure? {
          return Failure(canonical.error);
        }
        if canonical.value.Some? {
          return if SamePayload(canonical.value.value.0, c.selection) then Success(canonical.value.value)
                 else Failure("acceptance_request_conflict");
        }
      }
      r := CommitNew(c);
    }

    /** A commit whose request is not recorded. */
    method CommitNew(c: Commit) returns (r: Result<Acceptance>)
      requires Readable(documents) && Preflight(c).None? && !Recorded(documents, c.requestId)
      modifies this
      ensures Readable(documents) && Grows(old(documents), documents) && (old(Valid()) ==> Valid())
      ensures r.Success? <==> Stored(old(documents), c) || Writable(old(documents), c)
      ensures r.Success? ==> r.value == (c.selection, c.mission) && Stored(documents, c)
      ensures documents == if Writable(old(documents), c)
                           then old(documents)[c.selection.decisionId :=
                                               Appended(old(documents)[c.selection.decisionId], c)]
                           else old(documents)
      ensures r.Failure? ==> r.error == Refusal(old(documents), c)
                             || (Unused(old(documents), c) && c.selection.decisionId in old(documents))
    {
      GrowsReflexive(documents);
      var k := c.selection.decisionId;
      if k !in documents {
        NoDocument(documents, c);
        return Failure("decision_context_not_found");
      }
      StoredIsUsed(documents, c);
      var placed := Placement(c);
      if placed.Failure? {
        return Failure(placed.error);
      }
      if placed.value {
        return Success((c.selection, c.mission));
      }
      AppendedIsWellformed(documents, c);
      if Writable(documents, c) {
        AppendKeepsLineage(documents, c);
      }
      hide Lineage, Readable, Grows, Stored, Unused, UniqueIdentities;
      var written := Write(Appended(documents[k], c));
      if written.Failure? {
        return Failure(written.error);
      }
      r := Success((c.selection, c.mission));
    }

    /** The identity checks of a commit: already stored (true), unused (false), or a conflict. */
    method Placement(c: Commit) returns (r: Result<bool>)
      requires Preflight(c).None? && c.selection.decisionId in documents
      ensures r.Success? <==> Stored(documents, c) || Unused(documents, c)
      ensures r.Success? ==> (r.value <==> Stored(documents, c)) && (!r.value <==> Unused(documents, c))
      ensures r.Failure? ==> r.error == Refusal(documents, c)
    {
      var k, s := c.selection.decisionId, c.selection;
      var selections := SelectionHolders(documents, s.id);
      HolderFacts(documents, c, k);
      if selections != {} {
        if selections != {k} || documents[k].selections[s.id] != s {
          return Failure("selection_id_conflict");
        }
      }
      if c.mission.None? {
        return Success(selections != {});
      }
      var m := c.mission.value;
      var missions := MissionHolders(documents, m.id);
      if missions != {} {
        if missions != {k} || documents[k].missions[m.id] != m {
          return Failure("mission_id_conflict");
        }
      }
      if (selections != {}) != (missions != {}) {
        return Failure("acceptance_lineage_conflict");
      }
      r := Success(selections != {});
    }

    /** A sequence of commits. */
    method CommitAll(commits: seq<Commit>)
      requires Valid()
      modifies this
      ensures Valid() && Grows(old(documents), documents) && KeepsUnnamed(old(documents), documents)
    {
      GrowsReflexive(documents);
      assert KeepsUnnamed(documents, documents);
      hide *;
      for i := 0 to |commits|
        invariant Valid() && Grows(old(documents), documents) && KeepsUnnamed(old(documents), documents)
      {
        ghost var before := documents;
        CommitOne(commits[i]);
        GrowsTransitive(old(documents), before, documents);
        KeepsUnnamedTransitive(old(documents), before, documents);
      }
    }

    method CommitOne(c: Commit)
      requires Valid()
      modifies this
      ensures Valid() && Grows(old(documents), documents) && KeepsUnnamed(old(documents), documents)
    {
      assert Readable(documents);
      hide Grows, Lineage, Stored, Recorded, Refusal;
      var _ := CommitSelectionAndMission(c);
      if documents != old(documents) {
        AppendKeepsUnnamed(old(documents), c);
      }
    }

    /**
      A client that lost the answer retries its request with a freshly drawn selection (and mission) identity and
      the same choice, however many commits happened in between. It gets the answer of its first attempt again if and
      only if the request was recorded before that attempt or the pair was not stored yet: committing a pair that is
      already stored does not record the request.
     */
    method CommitThenRetry(first: Commit, between: seq<Commit>, second: Commit)
      returns (a: Result<Acceptance>, b: Result<Acceptance>)
      requires Valid()
      requires first.requestId.Some? && second.requestId == first.requestId
      requires Preflight(second).None? && SamePayload(first.selection, second.selection)
      modifies this
      ensures Valid() && Grows(old(documents), documents)
      ensures !old(Recorded(documents, first.requestId)) && old(Writable(documents, first))
              && Preflight(first).None? ==>
                a == b == Success((first.selection, first.mission)) && Stored(documents, first)
      ensures a.Success? && second.selection.id != first.selection.id ==>
                (a == b <==> old(Recorded(documents, first.requestId)) || !old(Stored(documents, first)))
    {
      ghost var before := documents;
      hide *;
      a := Attempt(first);
      ghost var stored := documents;
      CommitAll(between);
      ghost var grown := documents;
      b := Attempt(second);
      AttemptsAgree(before, first, a, stored, grown, second, b, documents);
      GrowsTransitive(before, stored, grown);
      GrowsTransitive(before, grown, documents);
    }

    /** A commit that carries a request, and its answer. */
    method Attempt(c: Commit) returns (r: Result<Acceptance>)
      requires Valid() && c.requestId.Some?
      modifies this
      ensures Valid() && Lineage(old(documents)) && Lineage(documents) && Grows(old(documents), documents)
      ensures Answered(old(documents), c, r, documents)
    {
      r := CommitSelectionAndMission(c);
    }

    /**
      The first attempt need not be recorded. A choice is committed without a request identity, committed again with
      one, and that request is retried: the retry stores a second pair and answers with it.
     */
    static method RetryOfAStoredPair() returns (a: Result<Acceptance>, b: Result<Acceptance>)
      ensures a.Success? && b.Success? && a != b
    {
      var store := new DecisionAcceptanceStore();
      var _ := store.CreateContext(Context("d", "context"));
      var one, two := Selection("s1", "d", Declined, None, 0, None, None),
          Selection("s2", "d", Declined, None, 0, None, None);
      var first, again, retry := Commit(one, None, None), Commit(one, None, Some("q")), Commit(two, None, Some("q"));
      assert Writable(store.documents, first) && !Recorded(store.documents, None);
      var _ := store.CommitSelectionAndMission(first);
      assert Stored(store.documents, again) && RequestHolders(store.documents, "q") == {};
      StoredIsUsed(store.documents, again);
      a := store.CommitSelectionAndMission(again);
      assert SelectionHolders(store.documents, "s2") == {} && Writable(store.documents, retry);
      b := store.CommitSelectionAndMission(retry);
    }

    /** `load_acceptance`: the canonical pair of a recorded request; a conflict only on damaged documents. */
    method LoadAcceptance(q: Id) returns (r: Result<Option<Acceptance>>)
      requires Readable(documents)
      ensures r.Success? <==> AtMostOne(RequestHolders(documents, q))
      ensures Valid() ==> r.Success?
      ensures r.Success? ==> (r.value.Some? <==> Recorded(documents, Some(q)))
      ensures r.Success? && r.value.Some? ==> forall k :: k in RequestHolders(documents, q) ==>
                r.value.value == Canonical(documents[k], q)
    {
      r := Lookup(q);
    }
  }
}
