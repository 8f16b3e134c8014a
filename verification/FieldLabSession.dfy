/** The writer boundary of the Field Lab store: admission, publication, and the query that follows them. */
module FieldLabSession {
  import opened Wrappers
  import opened Bytes
  import Enumeration
  import opened Merging
  import opened FieldLabArtifacts
  import opened FieldLabIndex
  import opened FieldLabTables
  import opened FieldLabBuild
  import opened FieldLabCapacity

  const TAIL_LIMIT: nat := 16_384
  const DOCUMENT_LIMIT: nat := 16_777_216
  const COMPARISON_LIMIT: nat := 65_536
  const REPORT_LIMIT: nat := 20_000
  const SAVE_CEILING: nat := 2_000_000

  // ---- tails: names published after the index was built ----

  /** The tail names whose artifacts belong to `run`, in order. */
  function TailOfRun(c: Codec, files: map<nat, File>, tail: seq<nat>, run: string): (mine: seq<nat>) {
    if tail == [] then []
    else
      var m := |tail| - 1;
      var value := EnvelopeOf(c, files, tail[m]);
      TailOfRun(c, files, tail[..m], run) + if value.Some? && OfRun(value.value, run) then [tail[m]] else []
  }

  /** `related_tail` lists each run's tail names; a run it does not mention has none. */
  ghost predicate RelatedTailExact(c: Codec, files: map<nat, File>, tail: seq<nat>,
                                   relatedTail: map<string, seq<nat>>) {
    forall run: string ::
      (if run in relatedTail then relatedTail[run] else []) == TailOfRun(c, files, tail, run)
  }

  function AddRelated(relatedTail: map<string, seq<nat>>, value: Metadata, name: nat): (r: map<string, seq<nat>>) {
    if IsRelatedRow(value) then
      var run := value.run.value;
      relatedTail[run := (if run in relatedTail then relatedTail[run] else []) + [name]]
    else relatedTail
  }

  lemma AddRelatedExact(c: Codec, files: map<nat, File>, tail: seq<nat>, relatedTail: map<string, seq<nat>>, name: nat,
                        value: Metadata)
    requires RelatedTailExact(c, files, tail, relatedTail)
    requires EnvelopeOf(c, files, name) == Some(value)
    ensures RelatedTailExact(c, files, tail + [name], AddRelated(relatedTail, value, name))
  {
    var longer, added := tail + [name], AddRelated(relatedTail, value, name);
    assert longer[..|tail|] == tail;
    forall run: string
      ensures (if run in added then added[run] else []) == TailOfRun(c, files, longer, run)
    {
      assert (if run in relatedTail then relatedTail[run] else []) == TailOfRun(c, files, tail, run);
    }
  }

  /** The metadata a session keeps for its own publications describes them. */
  ghost predicate OwnExact(c: Codec, files: map<nat, File>, own: map<nat, Metadata>) {
    forall n :: n in own ==> EnvelopeOf(c, files, n) == Some(own[n])
  }

  lemma {:induction false} TailMember(c: Codec, files: map<nat, File>, tail: seq<nat>, run: string)
    ensures forall n :: n in TailOfRun(c, files, tail, run) <==>
              n in tail && EnvelopeOf(c, files, n).Some? && OfRun(EnvelopeOf(c, files, n).value, run)
  {
    if tail != [] {
      TailMember(c, files, tail[..|tail| - 1], run);
      assert tail == tail[..|tail| - 1] + [tail[|tail| - 1]];
    }
  }

  lemma {:induction false} TailDistinct(c: Codec, files: map<nat, File>, tail: seq<nat>, run: string)
    requires forall i, j :: 0 <= i < j < |tail| ==> tail[i] != tail[j]
    ensures forall i, j :: 0 <= i < j < |TailOfRun(c, files, tail, run)| ==>
              TailOfRun(c, files, tail, run)[i] != TailOfRun(c, files, tail, run)[j]
  {
    if tail != [] {
      var m := |tail| - 1;
      var front := TailOfRun(c, files, tail[..m], run);
      TailDistinct(c, files, tail[..m], run);
      TailMember(c, files, tail[..m], run);
      forall i | 0 <= i < |front| ensures front[i] != tail[m] {
        assert front[i] in front;
        assert front[i] in tail[..m];
      }
    }
  }

  /** Publishing a new file changes nothing about the names already in a tail. */
  lemma {:induction false} TailUnchanged(c: Codec, files: map<nat, File>, more: map<nat, File>, tail: seq<nat>,
                                         run: string)
    requires forall n :: n in tail ==> EnvelopeOf(c, files, n) == EnvelopeOf(c, more, n)
    ensures TailOfRun(c, files, tail, run) == TailOfRun(c, more, tail, run)
  {
    if tail != [] {
      TailUnchanged(c, files, more, tail[..|tail| - 1], run);
    }
  }

  lemma RelatedTailKept(c: Codec, before: map<nat, File>, after: map<nat, File>, tail: seq<nat>,
                        relatedTail: map<string, seq<nat>>)
    requires forall n :: n in tail ==> EnvelopeOf(c, before, n) == EnvelopeOf(c, after, n)
    requires RelatedTailExact(c, before, tail, relatedTail)
    ensures RelatedTailExact(c, after, tail, relatedTail)
  {
    hide EnvelopeOf;
    forall run: string
      ensures (if run in relatedTail then relatedTail[run] else []) == TailOfRun(c, after, tail, run)
    {
      TailUnchanged(c, before, after, tail, run);
      assert (if run in relatedTail then relatedTail[run] else []) == TailOfRun(c, before, tail, run);
    }
  }

  lemma OneMoreFile(before: map<nat, File>, name: nat, file: File)
    requires name !in before
    ensures |before[name := file]| == |before| + 1
  {
    var after := before[name := file];
    assert after.Keys == before.Keys + {name};
    assert |after.Keys| == |before.Keys| + 1;
  }

  /** Publishing one new file keeps every fact about the files and the tail that were there before. */
  lemma PublishKeepsFiles(c: Codec, before: map<nat, File>, name: nat, a: Artifact)
    requires c.FaithfulInventory(before) && name !in before && name == c.sha(a.key)
    ensures var after := before[name := Envelope(a)];
            && c.FaithfulInventory(after) && |after| == |before| + 1
            && (forall n :: n in before ==> EnvelopeOf(c, after, n) == EnvelopeOf(c, before, n))
  {
    OneMoreFile(before, name, Envelope(a));
  }

  lemma PublishKeepsOwn(c: Codec, before: map<nat, File>, name: nat, a: Artifact, own: map<nat, Metadata>)
    requires name !in before && OwnExact(c, before, own)
    ensures OwnExact(c, before[name := Envelope(a)], own)
  {
  }

  lemma PublishKeeps(c: Codec, before: map<nat, File>, name: nat, a: Artifact, tail: seq<nat>,
                     relatedTail: map<string, seq<nat>>, own: map<nat, Metadata>)
    requires c.FaithfulInventory(before) && name !in before && name == c.sha(a.key)
    ensures var after := before[name := Envelope(a)];
            && c.FaithfulInventory(after) && |after| == |before| + 1
            && (OwnExact(c, before, own) ==> OwnExact(c, after, own))
            && ((forall n :: n in tail ==> n in before) && RelatedTailExact(c, before, tail, relatedTail)
                ==> RelatedTailExact(c, after, tail, relatedTail))
            && (forall n :: n in before ==> EnvelopeOf(c, after, n) == EnvelopeOf(c, before, n))
  {
    hide RelatedTailExact, OwnExact, EnvelopeOf;
    var after := before[name := Envelope(a)];
    PublishKeepsFiles(c, before, name, a);
    if OwnExact(c, before, own) {
      PublishKeepsOwn(c, before, name, a, own);
    }
    if (forall n :: n in tail ==> n in before) && RelatedTailExact(c, before, tail, relatedTail) {
      RelatedTailKept(c, before, after, tail, relatedTail);
    }
  }

  // ---- selection ----

  predicate InRange(timeMin: int, timeMax: int, start: Option<int>, end: Option<int>) {
    (start.Some? ==> timeMax >= start.value) && (end.Some? ==> timeMin <= end.value)
  }

  /** The full scan a query must agree with: the artifacts of the inventory that belong to `run` and the range. */
  predicate Selected(c: Codec, files: map<nat, File>, name: nat, run: string, start: Option<int>, end: Option<int>) {
    && name in files && c.Faithful(name, files[name])
    && files[name].artifact.kind.Related() && files[name].artifact.run == run
    && InRange(files[name].artifact.timeMin, files[name].artifact.timeMax, start, end)
  }

  /** The same without a run: what a periodic report covers. */
  predicate Reported(c: Codec, files: map<nat, File>, name: nat, start: Option<int>, end: Option<int>) {
    && name in files && c.Faithful(name, files[name])
    && files[name].artifact.kind.Related()
    && InRange(files[name].artifact.timeMin, files[name].artifact.timeMax, start, end)
  }

  // ---- admission ----

  /** How many new artifacts a writer still admits: the stop threshold, and the tail limit of an index in use. */
  function Room(stopAt: nat, count: nat, query: bool, tailLength: nat): (n: nat) {
    var byCount := if stopAt - count - 1 < 0 then 0 else stopAt - count - 1;
    var byTail := if tailLength < TAIL_LIMIT then TAIL_LIMIT - tailLength else 0;
    if query && byTail < byCount then byTail else byCount
  }

  /** What saving an artifact does. */
  ghost function Admission(c: Codec, files: map<nat, File>, a: Artifact, stopAt: nat, count: nat, query: bool,
                           tailLength: nat): (r: Result<bool>)
    requires c.FaithfulInventory(files)
  {
    var name := c.sha(a.key);
    if c.size(a) > DOCUMENT_LIMIT then Failure("field_lab_document_too_large")
    else if name in files then
      if files[name].artifact.key != a.key then Failure("field_lab_identity_mismatch")
      else if files[name].artifact == a then Success(false)
      else Failure("field_lab_immutable_conflict")
    else if count + 1 >= stopAt then Failure("field_lab_capacity_stop_scientific_facts_preserved")
    else if query && tailLength >= TAIL_LIMIT then Failure("field_lab_index_refresh_required")
    else Success(true)
  }

  lemma AdmittedOutcome(c: Codec, files: map<nat, File>, a: Artifact, stopAt: nat, count: nat, query: bool,
                        tailLength: nat)
    requires c.FaithfulInventory(files)
    ensures var r := Admission(c, files, a, stopAt, count, query, tailLength);
            && (r == Success(true) ==>
                c.sha(a.key) !in files && count + 1 < stopAt && (query ==> tailLength < TAIL_LIMIT))
            && (r == Success(false) ==> c.sha(a.key) in files && files[c.sha(a.key)] == Envelope(a))
  {
    assert c.sha(a.key) in files ==> c.Faithful(c.sha(a.key), files[c.sha(a.key)]);
  }

  lemma TailOnlyOfQuery(c: Codec, files: map<nat, File>, a: Artifact, stopAt: nat, count: nat, m: nat, n: nat)
    requires c.FaithfulInventory(files)
    ensures Admission(c, files, a, stopAt, count, false, m) == Admission(c, files, a, stopAt, count, false, n)
  {
  }

  /**
    A cycle that passes the default capacity check can publish its whole reserve exactly when no index
    is in use or the tail has room for the reserve as well: the count alone does not promise it.
   */
  lemma ReserveIsPublishable(maxArtifacts: nat, count: nat, query: bool, tailLength: nat)
    requires CheckCapacity(maxArtifacts, count) && tailLength <= TAIL_LIMIT
    ensures var p := CapacityPolicy(maxArtifacts);
            Room(p.stopAt, count, query, tailLength) >= p.reserve <==> !query || tailLength + p.reserve <= TAIL_LIMIT
  {
  }

  /** The reported figure is what a writer admits exactly when the tail does not bind first. */
  lemma RemainingIsRoom(maxArtifacts: nat, count: nat, query: bool, tailLength: nat)
    requires tailLength <= TAIL_LIMIT
    ensures Room(CapacityPolicy(maxArtifacts).stopAt, count, query, tailLength) == Remaining(maxArtifacts, count)
            <==> !query || Remaining(maxArtifacts, count) + tailLength <= TAIL_LIMIT
  {
  }

  // ---- what the documents and the query must satisfy ----

  ghost function IndexNames(c: Codec, indexed: seq<Metadata>): (names: set<nat>) {
    set k | k in NameKeys(c, indexed)
  }

  /** Faithful artifacts, sidecars that describe them, and an index built over an earlier inventory. */
  ghost predicate StoreOk(c: Codec, files: map<nat, File>, sidecars: map<nat, Metadata>,
                          index: Option<Generation>, indexed: seq<Metadata>) {
    && c.Valid() && c.FaithfulInventory(files)
    && (forall n :: n in sidecars ==> n in files && c.Matches(files[n].artifact, sidecars[n]))
    && (index.Some? ==> index.value == Tables(c, indexed) && Indexable(c, indexed) && IndexFaithful(c, files, indexed))
  }

  ghost predicate IndexFaithful(c: Codec, files: map<nat, File>, indexed: seq<Metadata>) {
    forall i :: 0 <= i < |indexed| && c.sha(indexed[i].key) in files ==>
      EnvelopeOf(c, files, c.sha(indexed[i].key)) == Some(indexed[i])
  }

  /** The query's view: index rows, then the tail, are the inventory with nothing missing and nothing twice. */
  ghost predicate QueryOk(c: Codec, files: map<nat, File>, indexed: seq<Metadata>, tail: seq<nat>,
                          relatedTail: map<string, seq<nat>>, own: map<nat, Metadata>, ownBytes: nat) {
    && IndexNames(c, indexed) <= files.Keys
    && Enumerates(tail, files.Keys - IndexNames(c, indexed))
    && |tail| <= TAIL_LIMIT
    && RelatedTailExact(c, files, tail, relatedTail)
    && OwnExact(c, files, own) && ownBytes <= DOCUMENT_LIMIT
  }

  lemma PublishedStore(c: Codec, files: map<nat, File>, sidecars: map<nat, Metadata>,
                       index: Option<Generation>, indexed: seq<Metadata>, name: nat, a: Artifact)
    requires StoreOk(c, files, sidecars, index, indexed)
    requires name !in files && name == c.sha(a.key)
    requires index.Some? ==> name !in IndexNames(c, indexed)
    ensures StoreOk(c, files[name := Envelope(a)], sidecars, index, indexed)
  {
    hide Tables, Indexable, EnvelopeOf;
    PublishKeeps(c, files, name, a, [], map[], map[]);
    forall i | 0 <= i < |indexed| && index.Some? ensures c.sha(indexed[i].key) != name {
      assert NameKeys(c, indexed)[i] in IndexNames(c, indexed);
    }
  }

  lemma InventoryIsFaithful(c: Codec, files: map<nat, File>)
    requires c.FaithfulInventory(files)
    ensures IndexFaithful(c, files, InventoryRows(c, files)) && IndexNames(c, InventoryRows(c, files)) == files.Keys
  {
    var rows := InventoryRows(c, files);
    forall i | 0 <= i < |rows| && c.sha(rows[i].key) in files
      ensures EnvelopeOf(c, files, c.sha(rows[i].key)) == Some(rows[i])
    {
      assert NameKeys(c, rows)[i] == SortedKeys(files.Keys)[i];
      assert SortedKeys(files.Keys)[i] in SortedKeys(files.Keys);
    }
  }

  /** An index built over the inventory itself. */
  lemma BuiltStore(c: Codec, files: map<nat, File>, sidecars: map<nat, Metadata>, index: Option<Generation>,
                   indexed: seq<Metadata>)
    requires StoreOk(c, files, sidecars, index, indexed) && Indexable(c, InventoryRows(c, files))
    ensures StoreOk(c, files, sidecars, Some(Tables(c, InventoryRows(c, files))), InventoryRows(c, files))
    ensures IndexNames(c, InventoryRows(c, files)) == files.Keys
  {
    InventoryIsFaithful(c, files);
  }

  lemma RefreshedStore(c: Codec, files: map<nat, File>, sidecars: map<nat, Metadata>,
                       index: Option<Generation>, indexed: seq<Metadata>, name: nat, a: Artifact)
    requires StoreOk(c, files, sidecars, index, indexed)
    requires name in files && files[name] == Envelope(a)
    ensures StoreOk(c, files, sidecars[name := c.MetadataOf(a)], index, indexed)
  {
    hide Tables, Indexable, IndexFaithful;
  }

  /** The metadata the session keeps for a publication of its own, within its byte budget. */
  function OwnAdd(own: map<nat, Metadata>, ownBytes: nat, name: nat, value: Metadata,
                  length: nat): (r: (map<nat, Metadata>, nat)) {
    if length <= 4096 && ownBytes + length <= DOCUMENT_LIMIT then (own[name := value], ownBytes + length)
       else (own, ownBytes)
  }

  lemma PublishedQuery(c: Codec, files: map<nat, File>, indexed: seq<Metadata>, tail: seq<nat>,
                       relatedTail: map<string, seq<nat>>, own: map<nat, Metadata>, ownBytes: nat,
                       name: nat, a: Artifact, length: nat)
    requires c.FaithfulInventory(files) && QueryOk(c, files, indexed, tail, relatedTail, own, ownBytes)
    requires name !in files && name == c.sha(a.key) && |tail| < TAIL_LIMIT
    ensures var (own', ownBytes') := OwnAdd(own, ownBytes, name, c.MetadataOf(a), length);
            QueryOk(c, files[name := Envelope(a)], indexed, tail + [name],
                    AddRelated(relatedTail, c.MetadataOf(a), name), own', ownBytes')
  {
    hide RelatedTailExact;
    var after := files[name := Envelope(a)];
    PublishKeeps(c, files, name, a, tail, relatedTail, own);
    AddRelatedExact(c, after, tail, relatedTail, name, c.MetadataOf(a));
    assert after.Keys - IndexNames(c, indexed) == (files.Keys - IndexNames(c, indexed)) + {name};
    EnumeratesAppend(tail, files.Keys - IndexNames(c, indexed), [name], {name});
  }

  lemma FreshQuery(c: Codec, files: map<nat, File>, indexed: seq<Metadata>, tail: seq<nat>,
                   relatedTail: map<string, seq<nat>>)
    requires IndexNames(c, indexed) <= files.Keys && Enumerates(tail, files.Keys - IndexNames(c, indexed))
             && |tail| <= TAIL_LIMIT
    requires RelatedTailExact(c, files, tail, relatedTail)
    ensures QueryOk(c, files, indexed, tail, relatedTail, map[], 0)
  {
    hide RelatedTailExact;
  }

  // ---- the store and its writer session ----

  class FieldLabStore {
    const c: Codec
    // durable documents
    var files: map<nat, File>
    var sidecars: map<nat, Metadata>
    var index: Option<Generation>
    ghost var indexed: seq<Metadata>
    // the writer state, and its query
    var active: bool
    var scopes: seq<nat>
    var stopAt: nat
    var count: nat
    var query: bool
    var tail: seq<nat>
    var relatedTail: map<string, seq<nat>>
    var ownMetadata: map<nat, Metadata>
    var ownBytes: nat

    ghost predicate StoreValid()
      reads `files, `sidecars, `index, `indexed
    {
      StoreOk(c, files, sidecars, index, indexed)
    }

    ghost function IndexedNames(): (names: set<nat>)
      reads `indexed
    {
      IndexNames(c, indexed)
    }

    /** How many names the index does not know. */
    ghost function Unindexed(): (n: nat)
      reads `files, `indexed
    {
      |files.Keys - IndexedNames()|
    }

    ghost predicate QueryExact()
      reads `files, `index, `indexed, `tail, `relatedTail, `ownMetadata, `ownBytes
    {
      index.Some? && QueryOk(c, files, indexed, tail, relatedTail, ownMetadata, ownBytes)
    }

    ghost predicate Valid()
      reads this
    {
      && StoreValid()
      && (if active then count == |files| && query == index.Some? && (query ==> QueryExact()) else scopes == [])
    }

    constructor (c: Codec)
      requires c.Valid()
      ensures Valid() && this.c == c
      ensures !active && files == map[] && sidecars == map[] && index == None
    {
      this.c := c;
      files, sidecars, index, indexed := map[], map[], None, [];
      active, scopes, stopAt, count, query := false, [], 0, 0, false;
      tail, relatedTail, ownMetadata, ownBytes := [], map[], map[], 0;
    }

    /** `_legacy_metadata`, then the upgrade of `_tail_metadata`: the metadata of one named file. */
    method FileMetadata(name: nat) returns (r: Option<Metadata>)
      requires name in files
      ensures StoreValid() ==> r == EnvelopeOf(c, files, name)
    {
      var value := if name in sidecars then Some(sidecars[name])
                   else if files[name].Envelope? then Some(c.MetadataOf(files[name].artifact)) else None;
      if value.None? || c.sha(value.value.key) != name {
        return None;
      }
      if Outdated(value.value) {
        if files[name].Corrupt? || !c.Matches(files[name].artifact, value.value) {
          return None;
        }
        return Some(c.MetadataOf(files[name].artifact));
      }
      r := value;
    }

    method TailMetadata(name: nat) returns (r: Option<Metadata>)
      requires name in files
      ensures StoreValid() && OwnExact(c, files, ownMetadata) ==> r == EnvelopeOf(c, files, name)
    {
      if name in ownMetadata {
        return Some(ownMetadata[name]);
      }
      r := FileMetadata(name);
    }

    /** While the query is exact, the metadata of every named file can be had. */
    method TailValue(name: nat) returns (m: Metadata)
      requires StoreValid() && QueryExact() && name in files
      ensures EnvelopeOf(c, files, name) == Some(m)
    {
      assert c.Faithful(name, files[name]);
      var value := TailMetadata(name);
      m := value.value;
    }

    method TailValues(names: seq<nat>) returns (r: seq<Metadata>)
      requires StoreValid() && QueryExact() && forall n :: n in names ==> n in files
      ensures |r| == |names| && forall i :: 0 <= i < |names| ==> EnvelopeOf(c, files, names[i]) == Some(r[i])
    {
      r := [];
      hide *;
      for i := 0 to |names|
        invariant |r| == i && forall k :: 0 <= k < i ==> EnvelopeOf(c, files, names[k]) == Some(r[k])
      {
        assert names[i] in names;
        var value := TailValue(names[i]);
        r := r + [value];
      }
    }

    /** `query.iter_metadata`: the streamed index rows, then the tail. */
    method IterMetadata() returns (r: Option<seq<Metadata>>)
      requires StoreValid() && QueryExact()
      ensures r.Some? && Collected(c, files, r.value, files.Keys)
    {
      hide *;
      ValidMeans();
      var rows := IndexRows();
      TailIsListed();
      var more := TailValues(tail);
      TailCollected(more);
      r := Some(rows + more);
    }

    lemma TailIsListed()
      requires QueryExact()
      ensures forall n :: n in tail ==> n in files
    {
    }

    lemma TailCollected(more: seq<Metadata>)
      requires StoreValid() && QueryExact() && |more| == |tail|
      requires forall i :: 0 <= i < |tail| ==> EnvelopeOf(c, files, tail[i]) == Some(more[i])
      ensures Collected(c, files, indexed + more, files.Keys)
    {
      IndexCollected();
      hide Tables, EnvelopeOf, RelatedTailExact, Collected, Indexable, StoreOk;
      CollectedAppend(c, files, indexed, IndexedNames(), tail, more);
      assert IndexedNames() + (set n | n in tail) == files.Keys;
    }

    lemma IndexSize()
      requires StoreValid() && index.Some?
      ensures |indexed| == |IndexedNames()|
    {
      Enumeration.EnumerationLength(NameKeys(c, indexed), IndexedNames());
    }

    lemma IndexCollected()
      requires StoreValid() && index.Some? && IndexedNames() <= files.Keys
      ensures Collected(c, files, indexed, IndexedNames())
    {
      forall i | 0 <= i < |indexed| ensures c.sha(indexed[i].key) in files {
        assert NameKeys(c, indexed)[i] in IndexedNames();
      }
    }

    /**
      The tail of a query: every listed name the index does not know. Refused above the tail limit, and
      when the matches are fewer than the indexed names, that is, when an indexed artifact is gone.
     */
    method BuildTail(names: seq<nat>) returns (r: Option<seq<nat>>)
      requires StoreValid() && index.Some? && Enumerates(names, files.Keys)
      ensures r.Some? <==> TailFits()
      ensures r.Some? ==> Enumerates(r.value, files.Keys - IndexedNames()) && |r.value| <= TAIL_LIMIT
      ensures r.Some? ==> forall n :: n in r.value ==> n in files.Keys
    {
      IndexReadable();
      IndexSize();
      AllMatched(IndexedNames(), files.Keys);
      var matched;
      r, matched := Divide(index.value, names, files.Keys, IndexedNames());
      if r.Some? && matched != index.value.manifest.count {
        r := None;
      }
    }

    lemma IndexReadable()
      requires StoreValid() && index.Some?
      ensures var g := index.value;
              && 0 <= g.manifest.count && |g.names| == g.manifest.count * 32
              && Ascending(g.names, 32, g.manifest.count) && g.manifest.count == |indexed|
      ensures forall k :: k in Keys(index.value) <==> k in IndexedNames()
    {
      TableNamesAscend(c, indexed);
      TableRows(c, indexed);
    }

    /** The query constructor's pass over its tail. */
    method GroupTail(names: seq<nat>) returns (r: map<string, seq<nat>>)
      requires StoreValid() && forall n :: n in names ==> n in files.Keys
      ensures RelatedTailExact(c, files, names, r)
    {
      r := map[];
      for i := 0 to |names|
        invariant RelatedTailExact(c, files, names[..i], r)
      {
        hide RelatedTailExact;
        assert names[i] in names && names[..i + 1] == names[..i] + [names[i]];
        var value := FileMetadata(names[i]);
        assert c.Faithful(names[i], files[names[i]]);
        AddRelatedExact(c, files, names[..i], r, names[i], value.value);
        r := AddRelated(r, value.value, names[i]);
      }
      assert names[..|names|] == names;
    }

    /** Every indexed artifact is still there, and not too many have been added since. */
    ghost predicate TailFits()
      reads `files, `indexed
    {
      IndexedNames() <= files.Keys && Unindexed() <= TAIL_LIMIT
    }

    /** What a query checks before it opens: the limits, and the index against the inventory. */
    ghost predicate Queryable(maxNames: nat)
      reads `files, `sidecars, `index, `indexed
    {
      index.Some? ==> |files| <= maxNames && |indexed| <= maxNames && |sidecars| <= maxNames && TailFits()
    }

    /** What the outermost writer scope checks before it opens. */
    ghost predicate Openable(maxNames: nat)
      reads `files, `sidecars, `index, `indexed
    {
      |files| <= maxNames && Queryable(maxNames)
    }

    lemma ValidMeans()
      ensures Valid() <==>
                StoreValid() && if active then count == |files| && query == index.Some? && (query ==> QueryExact())
                    else scopes == []
      ensures StoreValid() <==> StoreOk(c, files, sidecars, index, indexed)
      ensures StoreValid() ==> c.FaithfulInventory(files)
      ensures QueryExact() <==> index.Some? && QueryOk(c, files, indexed, tail, relatedTail, ownMetadata, ownBytes)
      ensures QueryExact() ==> IndexNames(c, indexed) <= files.Keys && |tail| <= TAIL_LIMIT
    {
    }

    lemma QueryableWithoutIndex(maxNames: nat)
      ensures index.None? ==> Queryable(maxNames)
    {
    }

    lemma NamesMean()
      ensures IndexedNames() == IndexNames(c, indexed)
    {
    }

    lemma OpenableMeans(maxNames: nat)
      ensures Openable(maxNames) <==> |files| <= maxNames && Queryable(maxNames)
      ensures index.Some? && Queryable(maxNames) ==> |files| <= maxNames
    {
    }

    /** `generation` on the files of the store's own index. */
    method OpenIndex(maxNames: nat) returns (ok: bool)
      requires StoreValid() && index.Some?
      ensures ok <==> |indexed| <= maxNames
    {
      IndexAccepted(maxNames);
      hide Accepted;
      ok := Open(c, index.value, maxNames);
    }

    /** `metadata_query` outside a session: the query's tail and its grouping, or no query without an index. */
    method OpenQuery(maxNames: nat) returns (ok: bool)
      requires StoreValid()
      modifies this`query, this`tail, this`relatedTail, this`ownMetadata, this`ownBytes
      ensures ok <==> Queryable(maxNames)
      ensures ok ==> query == index.Some? && (query ==> QueryExact() && ownMetadata == map[])
    {
      hide StoreOk, TailFits, QueryOk;
      query, tail, relatedTail, ownMetadata, ownBytes := false, [], map[], map[], 0;
      if index.None? {
        return true;
      }
      ok := OpenIndex(maxNames);
      if !ok || |sidecars| > maxNames {
        return false;
      }
      var names := List(files, maxNames);
      if names.None? {
        return false;
      }
      ok := OpenTail(names.value);
    }

    lemma FreshTail(rest: seq<nat>, grouped: map<string, seq<nat>>)
      requires TailFits() && Enumerates(rest, files.Keys - IndexedNames()) && |rest| <= TAIL_LIMIT
      requires RelatedTailExact(c, files, rest, grouped)
      ensures QueryOk(c, files, indexed, rest, grouped, map[], 0)
    {
      FreshQuery(c, files, indexed, rest, grouped);
    }

    /** The rest of `metadata_query`, once the index has been accepted. */
    method OpenTail(names: seq<nat>) returns (ok: bool)
      requires StoreValid() && index.Some? && Enumerates(names, files.Keys)
      requires ownMetadata == map[] && ownBytes == 0
      modifies this`query, this`tail, this`relatedTail
      ensures ok <==> TailFits()
      ensures ok ==> query && QueryExact()
    {
      hide StoreOk, QueryOk, TailFits, Enumerates, RelatedTailExact;
      var rest := BuildTail(names);
      if rest.None? {
        return false;
      }
      var grouped := GroupTail(rest.value);
      FreshTail(rest.value, grouped);
      query, tail, relatedTail := true, rest.value, grouped;
      ok := true;
    }

    lemma IndexAccepted(maxNames: nat)
      requires StoreValid() && index.Some?
      ensures Accepted(c, index.value, maxNames) <==> |indexed| <= maxNames
    {
      if |indexed| <= maxNames {
        TablesAccepted(c, indexed, maxNames);
      }
    }

    method EnterNested(maxNames: nat) returns (ok: bool)
      requires Valid() && active
      modifies this`scopes, this`stopAt
      ensures Valid() && (ok <==> count <= maxNames)
      ensures scopes == if ok then old(scopes) + [old(stopAt)] else old(scopes)
      ensures stopAt == if ok && CapacityPolicy(maxNames).stopAt < old(stopAt) then CapacityPolicy(maxNames).stopAt
              else old(stopAt)
    {
      hide StoreOk, QueryOk, CapacityPolicy;
      ok := count <= maxNames;
      if ok {
        scopes := scopes + [stopAt];
        stopAt := if CapacityPolicy(maxNames).stopAt < stopAt then CapacityPolicy(maxNames).stopAt else stopAt;
      }
    }

    method EnterOutermost(maxNames: nat) returns (ok: bool)
      requires Valid() && !active
      modifies this`active, this`count, this`stopAt, this`query, this`tail, this`relatedTail, this`ownMetadata,
               this`ownBytes
      ensures Valid() && (ok <==> Openable(maxNames)) && active == ok
      ensures ok ==> count == |files| && stopAt == CapacityPolicy(maxNames).stopAt
      ensures !ok ==> unchanged(this`count, this`stopAt)
    {
      hide *;
      ValidMeans();
      OpenableMeans(maxNames);
      ok := OpenQuery(maxNames);
      if ok {
        var values := CountInventory(maxNames);
        ok := values.Some?;
        if ok {
          active, count, stopAt := true, values.value, CapacityPolicy(maxNames).stopAt;
        }
      }
      ValidMeans();
    }

    /**
      `writer_lock`. The outermost scope opens the query, counts the inventory and sets the stop; a nested
      scope checks the running count and can only lower the stop.
     */
    method Enter(maxNames: nat) returns (ok: bool)
      requires Valid()
      modifies this`active, this`count, this`scopes, this`stopAt, this`query, this`tail, this`relatedTail,
               this`ownMetadata, this`ownBytes
      ensures Valid()
      ensures ok <==> if old(active) then old(count) <= maxNames else old(Openable(maxNames))
      ensures !ok ==> unchanged(this`active, this`scopes, this`stopAt, this`count)
      ensures ok ==> active && count == |files|
      ensures ok && old(active) ==> unchanged(this`tail, this`query, this`count)
                                    && scopes == old(scopes) + [old(stopAt)]
      ensures ok && old(active) ==>
                stopAt == if CapacityPolicy(maxNames).stopAt < old(stopAt) then CapacityPolicy(maxNames).stopAt
                    else old(stopAt)
      ensures ok && !old(active) ==> scopes == [] && stopAt == CapacityPolicy(maxNames).stopAt
    {
      hide StoreOk, QueryOk, CapacityPolicy, Openable;
      if active {
        ok := EnterNested(maxNames);
      } else {
        ok := EnterOutermost(maxNames);
      }
    }

    /** The count a new scope starts from: the metadata of the query, or of every file without one. */
    method CountInventory(maxNames: nat) returns (n: Option<nat>)
      requires StoreValid() && (query ==> QueryExact() && |files| <= maxNames)
      ensures n == if |files| <= maxNames then Some(|files|) else None
    {
      if query {
        var values := IterMetadata();
        Enumeration.EnumerationLength(NameKeys(c, values.value), files.Keys);
        return Some(|values.value|);
      }
      n := CountFiles(maxNames);
    }

    /** `iter_metadata` without an index, counted: the metadata of every listed file. */
    method CountFiles(maxNames: nat) returns (n: Option<nat>)
      requires StoreValid()
      ensures n == if |files| <= maxNames then Some(|files|) else None
    {
      var names := List(files, maxNames);
      if names.None? {
        return None;
      }
      var counted := 0;
      for i := 0 to |names.value|
        invariant counted == i
      {
        assert names.value[i] in names.value;
        var value := FileMetadata(names.value[i]);
        counted := counted + 1;
      }
      n := Some(counted);
    }

    /** What `iter_metadata` checks outside a session: the limits, and that no indexed artifact is gone. */
    ghost predicate Countable(maxNames: nat)
      reads `files, `sidecars, `index, `indexed
    {
      |files| <= maxNames && (index.Some? ==>
                              |indexed| <= maxNames && |sidecars| <= maxNames && IndexedNames() <= files.Keys)
    }

    /** `iter_metadata` outside a session, counted: the index rows, and every file that the index does not name. */
    method Recount(maxNames: nat) returns (n: Option<nat>)
      requires StoreValid()
      ensures n == if Countable(maxNames) then Some(|files|) else None
    {
      if index.None? {
        n := CountFiles(maxNames);
        return;
      }
      var ok := OpenIndex(maxNames);
      if !ok || |sidecars| > maxNames {
        return None;
      }
      var names := List(files, maxNames);
      if names.None? {
        return None;
      }
      IndexReadable();
      IndexSize();
      AllMatched(IndexedNames(), files.Keys);
      var rest, matched := Unmatched(index.value, names.value, files.Keys, IndexedNames());
      if matched != index.value.manifest.count {
        return None;
      }
      var rows := IndexRows();
      n := Some(|rows| + rest);
    }

    method IndexRows() returns (rows: seq<Metadata>)
      requires StoreValid() && index.Some?
      ensures rows == indexed
    {
      assert Indexable(c, indexed);
      IndexReadable();
      TableRows(c, indexed);
      var read := ReadRows(c, index.value);
      rows := read.value;
    }

    /** Leaving a scope restores the limit it found; leaving the outermost one ends the session. */
    method Exit()
      requires Valid() && active
      modifies this`active, this`scopes, this`stopAt
      ensures Valid()
      ensures old(scopes) != [] ==>
                active && scopes == old(scopes)[..|old(scopes)| - 1] && stopAt == old(scopes)[|old(scopes)| - 1]
      ensures old(scopes) == [] ==> !active && scopes == []
    {
      hide StoreOk, QueryOk;
      if scopes == [] {
        active := false;
      } else {
        stopAt, scopes := scopes[|scopes| - 1], scopes[..|scopes| - 1];
      }
    }

    /** `capacity_count`: the running count of a session, or a recount. */
    method CapacityCount(maxNames: nat) returns (r: Option<nat>)
      requires Valid()
      ensures r == if (if active then |files| <= maxNames else Countable(maxNames)) then Some(|files|) else None
    {
      hide StoreOk, QueryOk, Countable;
      if active {
        return if count > maxNames then None else Some(count);
      }
      r := Recount(maxNames);
    }

    /** What saving an artifact in the current session does, by the state before. */
    ghost function Outcome(a: Artifact): (r: Result<bool>)
      reads `files, `count, `stopAt, `query, `tail
      requires c.FaithfulInventory(files)
    {
      Admission(c, files, a, stopAt, count, query, |tail|)
    }

    /**
      A session whose tail is full admits nothing, although what it reports as `remaining` may be positive: it asks
      for a refresh of the index.
     */
    lemma FullTailAdmitsNothing(a: Artifact, maxArtifacts: nat)
      requires Valid() && active && query && |tail| == TAIL_LIMIT && c.sha(a.key) !in files
      requires stopAt == CapacityPolicy(maxArtifacts).stopAt
      ensures c.FaithfulInventory(files) && Outcome(a).Failure?
      ensures Remaining(maxArtifacts, count) > 0 && c.size(a) <= DOCUMENT_LIMIT ==>
                Outcome(a) == Failure("field_lab_index_refresh_required")
    {
      hide StoreOk, QueryOk, Tables, StoreValid, QueryExact, Valid;
      ValidMeans();
    }

    /** Link the document under its name, count it, and add it to the query's view (`FieldLabMetadataQuery.add`). */
    method Publish(a: Artifact)
      requires Valid() && active && c.sha(a.key) !in files
      requires query ==> |tail| < TAIL_LIMIT
      modifies this`files, this`count, this`tail, this`relatedTail, this`ownMetadata, this`ownBytes
      ensures Valid()
      ensures files == old(files)[c.sha(a.key) := Envelope(a)] && count == old(count) + 1
      ensures tail == if query then old(tail) + [c.sha(a.key)] else old(tail)
    {
      hide *;
      ValidMeans();
      var name, value := c.sha(a.key), c.MetadataOf(a);
      var length := |c.encode(value)|;
      assert |files[name := Envelope(a)]| == |files| + 1 by { PublishKeeps(c, files, name, a, [], map[], map[]); }
      PublishedStore(c, files, sidecars, index, indexed, name, a);
      if query {
        PublishedQuery(c, files, indexed, tail, relatedTail, ownMetadata, ownBytes, name, a, length);
      }
      files, count := files[name := Envelope(a)], count + 1;
      if query {
        tail := tail + [name];
        relatedTail := AddRelated(relatedTail, value, name);
        var added := OwnAdd(ownMetadata, ownBytes, name, value, length);
        ownMetadata, ownBytes := added.0, added.1;
      }
      ValidMeans();
    }

    method RefreshSidecar(a: Artifact)
      requires Valid() && c.sha(a.key) in files && files[c.sha(a.key)] == Envelope(a)
      modifies this`sidecars
      ensures Valid() && sidecars == old(sidecars)[c.sha(a.key) := c.MetadataOf(a)]
    {
      hide StoreOk, QueryOk;
      RefreshedStore(c, files, sidecars, index, indexed, c.sha(a.key), a);
      sidecars := sidecars[c.sha(a.key) := c.MetadataOf(a)];
    }

    /** The checks of `_save` before anything is written. */
    method Admit(a: Artifact) returns (r: Result<bool>)
      requires Valid() && active
      ensures r == Outcome(a)
    {
      hide QueryOk;
      var name := c.sha(a.key);
      if c.size(a) > DOCUMENT_LIMIT {
        return Failure("field_lab_document_too_large");
      }
      if name in files {
        assert c.Faithful(name, files[name]);
        if files[name].artifact.key != a.key {
          return Failure("field_lab_identity_mismatch");
        }
        return if files[name].artifact == a then Success(false) else Failure("field_lab_immutable_conflict");
      }
      if count + 1 >= stopAt {
        return Failure("field_lab_capacity_stop_scientific_facts_preserved");
      }
      if query && |tail| >= TAIL_LIMIT {
        return Failure("field_lab_index_refresh_required");
      }
      r := Success(true);
    }

    /**
      `_save`. A new artifact is published, counted and added to the query's view; an artifact already there
      is left alone; either way its sidecar is made current. Everything else is refused without a change.
     */
    method Save(a: Artifact) returns (r: Result<bool>)
      requires Valid() && active
      modifies this`files, this`sidecars, this`count, this`tail, this`relatedTail, this`ownMetadata, this`ownBytes
      ensures Valid() && r == old(Outcome(a))
      ensures files == if r == Success(true) then old(files)[c.sha(a.key) := Envelope(a)] else old(files)
      ensures count == if r == Success(true) then old(count) + 1 else old(count)
      ensures tail == if r == Success(true) && query then old(tail) + [c.sha(a.key)] else old(tail)
      ensures sidecars == if r.Success? then old(sidecars)[c.sha(a.key) := c.MetadataOf(a)] else old(sidecars)
      ensures r.Success? ==> c.sha(a.key) in files && files[c.sha(a.key)] == Envelope(a)
      ensures old(count) < stopAt ==> count < stopAt
    {
      StoreIsFaithful();
      hide StoreOk, QueryOk, Valid, StoreValid, QueryExact, Outcome;
      AdmittedMeans(a);
      r := Admit(a);
      if r.Success? {
        Keep(a, r.value);
      }
    }

    lemma AdmittedMeans(a: Artifact)
      requires Valid() && active
      ensures c.FaithfulInventory(files)
      ensures Outcome(a) == Success(true) ==>
                c.sha(a.key) !in files && count + 1 < stopAt && (query ==> |tail| < TAIL_LIMIT)
      ensures Outcome(a) == Success(false) ==> c.sha(a.key) in files && files[c.sha(a.key)] == Envelope(a)
    {
      StoreIsFaithful();
      hide StoreOk, QueryOk, Valid, StoreValid, QueryExact;
      AdmittedOutcome(c, files, a, stopAt, count, query, |tail|);
    }

    /** An admitted artifact: publish it if it is new, and rewrite its sidecar in any case. */
    method Keep(a: Artifact, isNew: bool)
      requires Valid() && active
      requires isNew ==> c.sha(a.key) !in files && (query ==> |tail| < TAIL_LIMIT)
      requires !isNew ==> c.sha(a.key) in files && files[c.sha(a.key)] == Envelope(a)
      modifies this`files, this`sidecars, this`count, this`tail, this`relatedTail, this`ownMetadata, this`ownBytes
      ensures Valid() && files == if isNew then old(files)[c.sha(a.key) := Envelope(a)] else old(files)
      ensures count == if isNew then old(count) + 1 else old(count)
      ensures tail == if isNew && query then old(tail) + [c.sha(a.key)] else old(tail)
      ensures sidecars == old(sidecars)[c.sha(a.key) := c.MetadataOf(a)]
      ensures c.sha(a.key) in files && files[c.sha(a.key)] == Envelope(a)
    {
      hide StoreOk, QueryOk, Valid, StoreValid, QueryExact;
      if isNew {
        Publish(a);
      }
      RefreshSidecar(a);
    }

    /** What `save` does: admission under the tighter of both limits, or under its own in a session of its own. */
    ghost function OwnOutcome(a: Artifact): (r: Result<bool>)
      reads this
      requires c.FaithfulInventory(files)
    {
      var own := CapacityPolicy(SAVE_CEILING).stopAt;
      if active then
        if count > SAVE_CEILING then Failure("field_lab_name_limit_exceeded")
        else Admission(c, files, a, if own < stopAt then own else stopAt, count, query, |tail|)
      else if !Openable(SAVE_CEILING) then Failure("field_lab_name_limit_exceeded")
      else Admission(c, files, a, own, |files|, index.Some?, Unindexed())
    }

    /**
      `save`: `_save` in a scope of its own. Whether that scope is a session or nested in one, afterwards the
      scopes and the stop are exactly what they were; only the outcome is bounded by the tighter of both limits.
     */
    method SaveInOwnScope(a: Artifact) returns (r: Result<bool>)
      requires Valid()
      modifies this`files, this`sidecars, this`active, this`scopes, this`stopAt, this`count, this`query, this`tail,
               this`relatedTail, this`ownMetadata, this`ownBytes
      ensures Valid() && active == old(active) && scopes == old(scopes)
      ensures old(active) ==> stopAt == old(stopAt)
      ensures old(c.FaithfulInventory(files)) && r == old(OwnOutcome(a))
      ensures files == if r == Success(true) then old(files)[c.sha(a.key) := Envelope(a)] else old(files)
      ensures r.Success? ==> c.sha(a.key) in files && files[c.sha(a.key)] == Envelope(a)
    {
      if active {
        r := SaveNested(a);
      } else {
        r := SaveAlone(a);
      }
    }

    /** `_save` in the scope that has just been entered, and out of it again. */
    method SaveAndLeave(a: Artifact) returns (r: Result<bool>)
      requires Valid() && active && scopes != []
      modifies this`files, this`sidecars, this`active, this`scopes, this`stopAt, this`count, this`query, this`tail,
               this`relatedTail, this`ownMetadata, this`ownBytes
      ensures Valid() && active && scopes == old(scopes)[..|old(scopes)| - 1]
              && stopAt == old(scopes)[|old(scopes)| - 1]
      ensures r == old(Outcome(a))
      ensures files == if r == Success(true) then old(files)[c.sha(a.key) := Envelope(a)] else old(files)
      ensures r.Success? ==> c.sha(a.key) in files && files[c.sha(a.key)] == Envelope(a)
    {
      hide StoreOk, QueryOk, Valid, StoreValid, QueryExact, Outcome;
      r := Save(a);
      Exit();
    }

    method SaveNested(a: Artifact) returns (r: Result<bool>)
      requires Valid() && active
      modifies this`files, this`sidecars, this`active, this`scopes, this`stopAt, this`count, this`query, this`tail,
               this`relatedTail, this`ownMetadata, this`ownBytes
      ensures Valid() && active && scopes == old(scopes) && stopAt == old(stopAt)
      ensures old(c.FaithfulInventory(files)) && r == old(OwnOutcome(a))
      ensures files == if r == Success(true) then old(files)[c.sha(a.key) := Envelope(a)] else old(files)
      ensures r.Success? ==> c.sha(a.key) in files && files[c.sha(a.key)] == Envelope(a)
    {
      assert (scopes + [stopAt])[..|scopes|] == scopes;
      hide StoreOk, QueryOk, Valid, StoreValid, QueryExact, Outcome, OwnOutcome, Admission, CapacityPolicy;
      NestedOutcome(a);
      var entered := EnterNested(SAVE_CEILING);
      if !entered {
        return Failure("field_lab_name_limit_exceeded");
      }
      OutcomeMeans(a);
      r := SaveAndLeave(a);
    }

    method SaveAlone(a: Artifact) returns (r: Result<bool>)
      requires Valid() && !active
      modifies this`files, this`sidecars, this`active, this`scopes, this`stopAt, this`count, this`query, this`tail,
               this`relatedTail, this`ownMetadata, this`ownBytes
      ensures Valid() && !active && scopes == []
      ensures old(c.FaithfulInventory(files)) && r == old(OwnOutcome(a))
      ensures files == if r == Success(true) then old(files)[c.sha(a.key) := Envelope(a)] else old(files)
      ensures r.Success? ==> c.sha(a.key) in files && files[c.sha(a.key)] == Envelope(a)
    {
      hide *;
      ValidMeans();
      ghost var outcome := OwnOutcome(a);
      AloneOutcome(a);
      var entered := EnterOutermost(SAVE_CEILING);
      if !entered {
        return Failure("field_lab_name_limit_exceeded");
      }
      EnteredOutcome(a);
      assert Outcome(a) == outcome;
      r := Save(a);
      Exit();
    }

    lemma EnteredOutcome(a: Artifact)
      requires Valid() && active && count == |files| && stopAt == CapacityPolicy(SAVE_CEILING).stopAt
      ensures c.FaithfulInventory(files)
      ensures Outcome(a) == Admission(c, files, a, CapacityPolicy(SAVE_CEILING).stopAt, |files|, index.Some?,
                                      Unindexed())
    {
      TailLength();
      TailOnlyOfQuery(c, files, a, stopAt, count, |tail|, Unindexed());
    }

    lemma OutcomeMeans(a: Artifact)
      requires c.FaithfulInventory(files)
      ensures Outcome(a) == Admission(c, files, a, stopAt, count, query, |tail|)
    {
    }

    lemma NestedOutcome(a: Artifact)
      requires Valid() && active
      ensures c.FaithfulInventory(files)
      ensures OwnOutcome(a) == if count > SAVE_CEILING then Failure("field_lab_name_limit_exceeded")
                               else Admission(c, files, a,
                                              if CapacityPolicy(SAVE_CEILING).stopAt < stopAt
                                              then CapacityPolicy(SAVE_CEILING).stopAt else stopAt,
                                              count, query, |tail|)
    {
    }

    lemma AloneOutcome(a: Artifact)
      requires Valid() && !active
      ensures c.FaithfulInventory(files) && scopes == []
      ensures OwnOutcome(a) == if !Openable(SAVE_CEILING) then Failure("field_lab_name_limit_exceeded")
                               else Admission(c, files, a, CapacityPolicy(SAVE_CEILING).stopAt, |files|, index.Some?,
                                              Unindexed())
    {
    }

    lemma TailLength()
      requires Valid() && active
      ensures query ==> |tail| == Unindexed()
    {
      if query {
        Enumeration.EnumerationLength(tail, files.Keys - IndexedNames());
      }
    }

    // ---- maintenance ----

    /** The store's own index is a faithful base. */
    lemma IndexIsFaithful(maxNames: nat)
      requires StoreValid() && index.Some? && Accepted(c, index.value, maxNames)
      ensures FaithfulBase(c, files, index.value)
    {
      TableRows(c, indexed);
      forall i | 0 <= i < |indexed| && c.sha(indexed[i].key) in files
        ensures c.Faithful(c.sha(indexed[i].key), files[c.sha(indexed[i].key)])
                && c.Matches(files[c.sha(indexed[i].key)].artifact, indexed[i])
      {
        assert EnvelopeOf(c, files, c.sha(indexed[i].key)) == Some(indexed[i]);
      }
    }

    /**
      `rebuild_metadata_index`, under the maintenance lock. It fails exactly when the inventory cannot be indexed or,
      unless forced, the old index is not usable; it installs the tables of the whole inventory.
     */
    method RebuildIndex(maxNames: nat, force: bool) returns (r: Result<()>)
      requires Valid()
      modifies this`index, this`indexed
      ensures Valid()
      ensures active ==> r == Failure("field_lab_writer_busy")
      ensures !active ==>
                (r.Success? <==> Buildable(c, files, maxNames)
                                 && (old(index).Some? && !force ==> BaseUsable(c, files, old(index).value, maxNames)))
      ensures r.Success? ==> c.FaithfulInventory(files) && index == Some(Tables(c, InventoryRows(c, files)))
                             && IndexedNames() == files.Keys
      ensures r.Failure? ==> unchanged(this`index, this`indexed)
    {
      if active {
        return Failure("field_lab_writer_busy");
      }
      hide *;
      ValidMeans();
      var built := NewIndex(maxNames, force);
      if built.None? {
        return Failure("field_lab_index_not_built");
      }
      index, indexed := built, InventoryRows(c, files);
      ValidMeans();
      NamesMean();
      r := Success(());
    }

    /** The build over the store's own index, and what it is worth to the store. */
    method NewIndex(maxNames: nat, force: bool) returns (g: Option<Generation>)
      requires StoreValid()
      ensures g.Some? <==> Buildable(c, files, maxNames)
                           && (index.Some? && !force ==> BaseUsable(c, files, index.value, maxNames))
      ensures g.Some? ==>
                && c.FaithfulInventory(files) && g == Some(Tables(c, InventoryRows(c, files)))
                && StoreOk(c, files, sidecars, g, InventoryRows(c, files))
                   && IndexNames(c, InventoryRows(c, files)) == files.Keys
    {
      if index.Some? && Accepted(c, index.value, maxNames) {
        IndexIsFaithful(maxNames);
      }
      StoreIsFaithful();
      hide *;
      ghost var base := if force then None else index;
      FaithfulReuse(c, files, base, maxNames);
      if BaseReusable(c, files, base, maxNames) {
        SameBuild(c, files, Reused(c, files, base, maxNames), maxNames);
      }
      g := Build(c, files, index, force, maxNames);
      if g.Some? {
        BuiltStore(c, files, sidecars, index, indexed);
      }
    }

    lemma StoreIsFaithful()
      requires StoreValid()
      ensures c.Valid() && c.FaithfulInventory(files) && StoreOk(c, files, sidecars, index, indexed)
    {
    }

    /** `refresh_metadata_index`: only for an index in use that the inventory has outgrown by the threshold. */
    method RefreshIndex(counted: nat, maxNames: nat, threshold: nat) returns (r: Result<bool>)
      requires Valid()
      modifies this`index, this`indexed
      ensures Valid()
      ensures r == Success(true) ==> c.FaithfulInventory(files) && index == Some(Tables(c, InventoryRows(c, files)))
                                     && IndexedNames() == files.Keys
      ensures r != Success(true) ==> unchanged(this`index, this`indexed)
      ensures r == Success(false) <==>
                old(index).None? || (|old(indexed)| <= maxNames && counted < |old(indexed)| + threshold)
    {
      hide StoreOk, QueryOk, Tables, InventoryRows;
      if index.None? {
        return Success(false);
      }
      var ok := OpenIndex(maxNames);
      if !ok {
        return Failure("field_lab_index_invalid");
      }
      IndexReadable();
      if counted - index.value.manifest.count < threshold {
        return Success(false);
      }
      var rebuilt := RebuildIndex(maxNames, false);
      r := if rebuilt.Success? then Success(true) else Failure(rebuilt.error);
    }

    // ---- the query ----

    /** The metadata a run's query streams: the index rows of the run, then its tail names. */
    method RunValues(run: string) returns (r: Option<seq<Metadata>>)
      requires StoreValid() && QueryExact()
      ensures r.None? <==> RunCollision(c, indexed, run)
      ensures r.Some? ==> Collected(c, files, r.value, RunNames(c, files, run))
    {
      assert c.Valid() && Indexable(c, indexed) && index.value == Tables(c, indexed);
      var rows := Related(c, index.value, run, indexed);
      if rows.None? {
        return None;
      }
      var names := if run in relatedTail then relatedTail[run] else [];
      assert names == TailOfRun(c, files, tail, run);
      assert forall n :: n in names ==> n in files by { TailMember(c, files, tail, run); }
      var more := TailValues(names);
      assert Collected(c, files, indexed, IndexNames(c, indexed)) by {
        IndexCollected();
      }
      RunCollected(c, files, indexed, tail, run, more);
      r := Some(rows.value + more);
    }

    /** Read the envelope behind a metadata value, refusing oversized or changed ones. */
    method LoadComparison(value: Metadata) returns (r: Option<Artifact>)
      requires StoreValid() && EnvelopeOf(c, files, c.sha(value.key)) == Some(value)
      ensures r.Some? <==> c.size(files[c.sha(value.key)].artifact) <= COMPARISON_LIMIT
      ensures r.Some? ==> r.value == files[c.sha(value.key)].artifact
    {
      hide StoreOk;
      var artifact := files[c.sha(value.key)].artifact;
      if c.size(artifact) > COMPARISON_LIMIT {
        return None;
      }
      r := if c.sha(artifact.payload) == value.digest && c.Matches(artifact, value) then Some(artifact) else None;
    }

    method LoadAll(pending: seq<Metadata>) returns (r: Option<seq<Artifact>>)
      requires StoreValid() && forall i :: 0 <= i < |pending| ==>
                 EnvelopeOf(c, files, c.sha(pending[i].key)) == Some(pending[i])
      ensures r.Some? <==> Loadable(c, files, pending)
      ensures r.Some? ==> Loaded(c, files, pending, r.value)
    {
      hide StoreOk;
      var loaded: seq<Artifact> := [];
      for i := 0 to |pending|
        invariant Loadable(c, files, pending[..i]) && Loaded(c, files, pending[..i], loaded)
      {
        var artifact := LoadComparison(pending[i]);
        assert pending[..i + 1] == pending[..i] + [pending[i]];
        if artifact.None? {
          return None;
        }
        assert NameKeys(c, pending[..i + 1]) == NameKeys(c, pending[..i]) + [c.sha(pending[i].key)];
        assert ArtifactNames(c, loaded + [artifact.value]) == ArtifactNames(c, loaded) + [c.sha(artifact.value.key)];
        loaded := loaded + [artifact.value];
      }
      assert pending[..|pending|] == pending;
      r := Some(loaded);
    }

    /**
      `comparison_artifacts`: exactly the artifacts of the run in the range, each once, as a full scan would
      select them. Refused exactly when another indexed run has the same hash or a selected envelope is too large.
     */
    method ComparisonArtifacts(run: string, start: Option<int>, end: Option<int>) returns (r: Option<seq<Artifact>>)
      requires StoreValid() && QueryExact()
      ensures r.Some? <==> !RunCollision(c, indexed, run)
                           && forall n :: Selected(c, files, n, run, start, end) ==>
                                c.size(files[n].artifact) <= COMPARISON_LIMIT
      ensures r.Some? ==> Yields(c, files, r.value, SelectedNames(c, files, run, start, end))
    {
      assert StoreValid();
      hide *;
      var values := RunValues(run);
      if values.None? {
        return None;
      }
      r := LoadInRange(values.value, run, start, end);
    }

    /** Read the in-range envelopes of a run's metadata in batches of 32. */
    method LoadInRange(values: seq<Metadata>, run: string, start: Option<int>, end: Option<int>)
      returns (r: Option<seq<Artifact>>)
      requires StoreValid() && Collected(c, files, values, RunNames(c, files, run))
      ensures r.Some? <==> forall n :: Selected(c, files, n, run, start, end) ==>
                c.size(files[n].artifact) <= COMPARISON_LIMIT
      ensures r.Some? ==> Yields(c, files, r.value, SelectedNames(c, files, run, start, end))
    {
      NothingLoaded(c, files, start, end);
      hide *;
      ghost var kept := InRangeOf(values, start, end);
      KeptCollected(c, files, values, run, start, end);
      KeptLoadable(c, files, values, run, start, end);
      var loaded: seq<Artifact>, pending: seq<Metadata> := [], [];
      ghost var done: seq<Metadata> := [];
      assert values[..0] == [];
      for i := 0 to |values|
        invariant Loaded(c, files, done, loaded) && Loadable(c, files, done)
        invariant done + pending == InRangeOf(values[..i], start, end)
      {
        var value := values[i];
        KeptStep(values, i, start, end);
        if InRange(value.timeMin, value.timeMax, start, end) {
          pending := pending + [value];
          if |pending| == 32 {
            KeptPrefix(c, files, values, i + 1, start, end, done, pending, RunNames(c, files, run));
            var more := LoadAll(pending);
            if more.None? {
              return None;
            }
            LoadedAppend(c, files, done, loaded, pending, more.value);
            loaded, done, pending := loaded + more.value, done + pending, [];
          }
        }
      }
      assert values[..|values|] == values;
      KeptPrefix(c, files, values, |values|, start, end, done, pending, RunNames(c, files, run));
      var more := LoadAll(pending);
      if more.None? {
        return None;
      }
      LoadedAppend(c, files, done, loaded, pending, more.value);
      assert done + pending == kept;
      LoadedYields(c, files, kept, loaded + more.value, SelectedNames(c, files, run, start, end));
      r := Some(loaded + more.value);
    }

    /** One comparison of the inventory counted, and its run noted. */
    method ReportValue(values: seq<Metadata>, i: nat, start: Option<int>, end: Option<int>, runs: set<string>,
                       counted: nat, ghost seen: set<nat>)
      returns (next: set<string>, more: nat, ghost now: set<nat>)
      requires Collected(c, files, values, files.Keys) && i < |values|
      requires ReportedUpTo(c, files, values, i, start, end, runs, seen) && counted == |seen|
      ensures ReportedUpTo(c, files, values, i + 1, start, end, next, now) && more == |now|
      ensures now <= ReportedNames(c, files, start, end)
    {
      var m := values[i];
      ReportOne(c, files, values, i, start, end, runs, seen);
      hide *;
      next, more, now := runs, counted, seen;
      if InRange(m.timeMin, m.timeMax, start, end) && m.kind.Related() {
        next, more, now := runs + {m.run.value}, counted + 1, seen + {c.sha(m.key)};
      }
    }

    /** The runs a periodic report covers, refused above the report limit. */
    method ReportRuns(values: seq<Metadata>, start: Option<int>, end: Option<int>) returns (r: Option<set<string>>)
      requires StoreValid() && Collected(c, files, values, files.Keys)
      ensures r.Some? <==> |ReportedNames(c, files, start, end)| <= REPORT_LIMIT
      ensures r.Some? ==> forall run :: run in r.value <==> exists n :: Selected(c, files, n, run, start, end)
    {
      var runs: set<string>, counted := {}, 0;
      ghost var seen: set<nat> := {};
      assert ReportedUpTo(c, files, values, 0, start, end, runs, seen);
      hide *;
      for i := 0 to |values|
        invariant counted == |seen| <= REPORT_LIMIT
        invariant ReportedUpTo(c, files, values, i, start, end, runs, seen)
      {
        runs, counted, seen := ReportValue(values, i, start, end, runs, counted, seen);
        if counted > REPORT_LIMIT {
          Enumeration.SubsetSize(seen, ReportedNames(c, files, start, end));
          return None;
        }
      }
      ReportedAll(c, files, values, start, end, runs, seen);
      r := Some(runs);
    }

    /**
      The selection of `_periodic_report`: the union of the queries of the runs it meets is the full in-range
      scan of comparisons, each once. Refused exactly above the report limit, on a hash collision of a
      reported run, or for an oversized envelope.
     */
    method ReportArtifacts(start: Option<int>, end: Option<int>) returns (r: Option<seq<Artifact>>)
      requires StoreValid() && QueryExact()
      ensures r.Some? <==> Reportable(c, files, indexed, start, end)
      ensures r.Some? ==> Yields(c, files, r.value, ReportedNames(c, files, start, end))
    {
      var values := IterMetadata();
      var selected := ReportRuns(values.value, start, end);
      if selected.None? {
        assert !Reportable(c, files, indexed, start, end);
        return None;
      }
      var remaining, artifacts: seq<Artifact> := selected.value, [];
      ghost var done: set<nat> := {};
      assert Reporting(c, files, indexed, start, end, selected.value, remaining, artifacts, done) by {
      }
      while remaining != {}
        invariant Reporting(c, files, indexed, start, end, selected.value, remaining, artifacts, done)
        decreases |remaining|
      {
        var run :| run in remaining;
        var more := ComparisonArtifacts(run, start, end);
        ReportRun(c, files, indexed, start, end, selected.value, remaining, artifacts, done, run);
        if more.None? {
          return None;
        }
        ReportMerged(c, files, indexed, start, end, selected.value, remaining, artifacts, done, run, more.value);
        artifacts, done := artifacts + more.value, done + SelectedNames(c, files, run, start, end);
        remaining := remaining - {run};
      }
      ReportDone(c, files, indexed, start, end, selected.value, artifacts, done);
      r := Some(artifacts);
    }

    /**
      The part of `periodic_report` that selects comparisons: through the query of the session, or one of its own, as
      a report outside any session uses; without an index it leaves the selection to the full scan.
     */
    method PeriodicReport(maxNames: nat, start: Option<int>, end: Option<int>)
      returns (ok: bool, selected: Option<seq<Artifact>>)
      requires Valid()
      modifies this`query, this`tail, this`relatedTail, this`ownMetadata, this`ownBytes
      ensures Valid() && (old(active) ==> unchanged(this))
      ensures ok <==>
                (index.Some? ==> (if active then count <= maxNames else Queryable(maxNames))
                                 && Reportable(c, files, indexed, start, end))
      ensures ok ==> (selected.Some? <==> index.Some?)
      ensures ok && selected.Some? ==> Yields(c, files, selected.value, ReportedNames(c, files, start, end))
    {
      QueryableWithoutIndex(maxNames);
      hide *;
      ValidMeans();
      ok, selected := true, None;
      if active {
        ok := query ==> count <= maxNames;
      } else {
        ok := OpenQuery(maxNames);
      }
      if ok && query {
        selected := ReportArtifacts(start, end);
        ok := selected.Some?;
      }
      ValidMeans();
    }

    lemma CountIsSize()
      requires Valid() && active
      ensures count == |files| && (query ==> |tail| <= TAIL_LIMIT)
    {
    }

    /** Save one more new artifact, or find that no other new one will be admitted either. */
    method SaveNext(a: Artifact) returns (refused: bool)
      requires Valid() && active && count < stopAt && c.size(a) <= DOCUMENT_LIMIT && c.sha(a.key) !in files
      modifies this`files, this`sidecars, this`count, this`tail, this`relatedTail, this`ownMetadata, this`ownBytes
      ensures Valid() && count < stopAt && (refused <==> old(NextRefused()))
      ensures refused ==> files == old(files) && count == old(count) && tail == old(tail)
      ensures !refused ==> files.Keys == old(files).Keys + {c.sha(a.key)} && count == old(count) + 1
      ensures !refused && query ==> |tail| == old(|tail|) + 1
    {
      hide StoreOk, QueryOk, Valid, Outcome;
      NewOutcome(a);
      var saved := Save(a);
      refused := saved.Failure?;
    }

    /**
      Saving distinct new artifacts one after another until the first refusal admits exactly `Room` of them:
      the stop threshold is never reached, and the tail limit binds when an index is in use.
     */
    method SaveMany(artifacts: seq<Artifact>) returns (admitted: nat)
      requires Valid() && active && count < stopAt
      requires forall i :: 0 <= i < |artifacts| ==>
                 c.size(artifacts[i]) <= DOCUMENT_LIMIT && c.sha(artifacts[i].key) !in files
      requires forall i, j :: 0 <= i < j < |artifacts| ==> c.sha(artifacts[i].key) != c.sha(artifacts[j].key)
      modifies this`files, this`sidecars, this`count, this`tail, this`relatedTail, this`ownMetadata, this`ownBytes
      ensures Valid() && count < stopAt
      ensures var room := Room(stopAt, old(count), query, old(|tail|));
              admitted == (if |artifacts| < room then |artifacts| else room) && |files| == |old(files)| + admitted
      ensures forall i :: 0 <= i < |artifacts| ==> (c.sha(artifacts[i].key) in files <==> i < admitted)
    {
      hide StoreOk, QueryOk, Valid, Outcome, StoreValid, QueryExact, Room;
      CountIsSize();
      admitted := 0;
      var refused := false;
      while admitted < |artifacts| && !refused
        invariant admitted <= |artifacts| && Valid() && count < stopAt && stopAt == old(stopAt)
        invariant count == old(count) + admitted && (query ==> |tail| == old(|tail|) + admitted)
        invariant refused ==> NextRefused()
        invariant forall i :: 0 <= i < |artifacts| ==> (c.sha(artifacts[i].key) in files <==> i < admitted)
        decreases |artifacts| - admitted, !refused
      {
        refused := SaveNext(artifacts[admitted]);
        if !refused {
          admitted := admitted + 1;
        }
      }
      assert refused ==> NextRefused();
      CountIsSize();
      AdmittedIsRoom(stopAt, old(count), query, old(|tail|), admitted, |artifacts|);
    }

    static lemma AdmittedIsRoom(stopAt: nat, before: nat, query: bool, tailBefore: nat, admitted: nat, n: nat)
      requires admitted <= n && before + admitted < stopAt && (query ==> tailBefore + admitted <= TAIL_LIMIT)
      requires admitted < n ==> before + admitted + 1 >= stopAt || (query && tailBefore + admitted >= TAIL_LIMIT)
      ensures admitted == if n < Room(stopAt, before, query, tailBefore) then n
              else Room(stopAt, before, query, tailBefore)
    {
    }

    /** The session admits no further new artifact. */
    predicate NextRefused()
      reads `count, `stopAt, `query, `tail
    {
      count + 1 >= stopAt || (query && |tail| >= TAIL_LIMIT)
    }

    lemma NewOutcome(a: Artifact)
      requires Valid() && active && c.sha(a.key) !in files && c.size(a) <= DOCUMENT_LIMIT
      ensures c.FaithfulInventory(files)
      ensures Outcome(a).Failure? <==> NextRefused()
      ensures Outcome(a).Success? ==> Outcome(a) == Success(true)
    {
    }
  }

  // ---- the report's selection ----

  ghost function ReportedNames(c: Codec, files: map<nat, File>, start: Option<int>,
                               end: Option<int>): (names: set<nat>) {
    set n | n in files && Reported(c, files, n, start, end)
  }

  /** A run of the report whose query succeeds. */
  ghost predicate Answerable(c: Codec, files: map<nat, File>, indexed: seq<Metadata>, start: Option<int>,
                             end: Option<int>, run: string) {
    && !RunCollision(c, indexed, run)
    && (forall n :: Selected(c, files, n, run, start, end) ==> c.size(files[n].artifact) <= COMPARISON_LIMIT)
  }

  ghost predicate Reportable(c: Codec, files: map<nat, File>, indexed: seq<Metadata>, start: Option<int>,
                             end: Option<int>) {
    && |ReportedNames(c, files, start, end)| <= REPORT_LIMIT
    && (forall n, run :: Selected(c, files, n, run, start, end) ==> Answerable(c, files, indexed, start, end, run))
  }

  /** The runs of the artifacts seen. */
  ghost predicate RunsSeen(c: Codec, files: map<nat, File>, start: Option<int>, end: Option<int>, runs: set<string>,
                           seen: set<nat>) {
    forall run :: run in runs <==> exists n :: n in seen && Selected(c, files, n, run, start, end)
  }

  ghost predicate ReportedUpTo(c: Codec, files: map<nat, File>, values: seq<Metadata>, i: nat, start: Option<int>,
                               end: Option<int>, runs: set<string>, seen: set<nat>) {
    && i <= |values|
    && (forall n :: n in seen <==> n in NameKeys(c, values[..i]) && Reported(c, files, n, start, end))
    && RunsSeen(c, files, start, end, runs, seen)
  }

  lemma ReportOne(c: Codec, files: map<nat, File>, values: seq<Metadata>, i: nat, start: Option<int>, end: Option<int>,
                  runs: set<string>, seen: set<nat>)
    requires i < |values| && ReportedUpTo(c, files, values, i, start, end, runs, seen)
    requires Collected(c, files, values, files.Keys)
    ensures var m := values[i];
            var name := c.sha(m.key);
            && name !in seen
            && seen <= ReportedNames(c, files, start, end)
            && (m.kind.Related() ==> m.run.Some?)
            && (InRange(m.timeMin, m.timeMax, start, end) && m.kind.Related() ==>
                  name in ReportedNames(c, files, start, end)
                  && ReportedUpTo(c, files, values, i + 1, start, end, runs + {m.run.value}, seen + {name}))
            && (!(InRange(m.timeMin, m.timeMax, start, end) && m.kind.Related()) ==>
                  ReportedUpTo(c, files, values, i + 1, start, end, runs, seen))
  {
    var m := values[i];
    var name := c.sha(m.key);
    ReportedFacts(c, files, values, i, start, end);
    hide Reported, Selected, Collected, InRange, EnvelopeOf, RunsSeen;
    assert NameKeys(c, values[..i + 1]) == NameKeys(c, values[..i]) + [name];
    if InRange(m.timeMin, m.timeMax, start, end) && m.kind.Related() {
      RunsGrow(c, files, start, end, runs, seen, name, m.run.value);
    }
    assert seen <= ReportedNames(c, files, start, end);
  }

  lemma ReportedFacts(c: Codec, files: map<nat, File>, values: seq<Metadata>, i: nat, start: Option<int>,
                      end: Option<int>)
    requires i < |values| && Collected(c, files, values, files.Keys)
    ensures var m := values[i];
            var name := c.sha(m.key);
            && name !in NameKeys(c, values[..i])
            && (m.kind.Related() ==> m.run.Some?)
            && (Reported(c, files, name, start, end) <==> InRange(m.timeMin, m.timeMax, start, end) && m.kind.Related())
            && (Reported(c, files, name, start, end) ==>
                  name in ReportedNames(c, files, start, end) && forall run ::
                        Selected(c, files, name, run, start, end) <==> run == m.run.value)
  {
    var m := values[i];
    var name := c.sha(m.key);
    assert forall k :: 0 <= k < i ==> NameKeys(c, values[..i])[k] == NameKeys(c, values)[k] != NameKeys(c, values)[i];
    assert EnvelopeOf(c, files, name) == Some(m);
  }

  lemma RunsGrow(c: Codec, files: map<nat, File>, start: Option<int>, end: Option<int>, runs: set<string>,
                 seen: set<nat>, name: nat, own: string)
    requires RunsSeen(c, files, start, end, runs, seen)
    requires forall run :: Selected(c, files, name, run, start, end) <==> run == own
    ensures RunsSeen(c, files, start, end, runs + {own}, seen + {name})
  {
    hide Selected;
    forall run
      ensures run in runs + {own} <==> exists n :: n in seen + {name} && Selected(c, files, n, run, start, end)
    {
      if run in runs {
        var n :| n in seen && Selected(c, files, n, run, start, end);
        assert n in seen + {name};
      } else if run == own {
        assert name in seen + {name};
      }
    }
  }

  lemma ReportedAll(c: Codec, files: map<nat, File>, values: seq<Metadata>, start: Option<int>, end: Option<int>,
                    runs: set<string>, seen: set<nat>)
    requires ReportedUpTo(c, files, values, |values|, start, end, runs, seen)
    requires Collected(c, files, values, files.Keys)
    ensures seen == ReportedNames(c, files, start, end)
    ensures forall run :: run in runs <==> exists n :: Selected(c, files, n, run, start, end)
  {
    assert values[..|values|] == values;
    assert seen == ReportedNames(c, files, start, end);
    assert forall n, run :: Selected(c, files, n, run, start, end) ==> n in seen;
  }

  /** The runs done so far have been answered, and what they gave is the reported artifacts of those runs. */
  ghost predicate Reporting(c: Codec, files: map<nat, File>, indexed: seq<Metadata>, start: Option<int>,
                            end: Option<int>,
                            runs: set<string>, remaining: set<string>, artifacts: seq<Artifact>, done: set<nat>) {
    && remaining <= runs
    && Yields(c, files, artifacts, done)
    && (forall n :: n in done <==> exists run :: run in runs - remaining && Selected(c, files, n, run, start, end))
    && (forall run :: run in runs - remaining ==> Answerable(c, files, indexed, start, end, run))
  }

  lemma ReportRun(c: Codec, files: map<nat, File>, indexed: seq<Metadata>, start: Option<int>, end: Option<int>,
                  runs: set<string>, remaining: set<string>, artifacts: seq<Artifact>, done: set<nat>, run: string)
    requires Reporting(c, files, indexed, start, end, runs, remaining, artifacts, done) && run in remaining
    requires forall r :: r in runs <==> exists n :: Selected(c, files, n, r, start, end)
    ensures !Answerable(c, files, indexed, start, end, run) ==> !Reportable(c, files, indexed, start, end)
    ensures Answerable(c, files, indexed, start, end, run) <==>
              !RunCollision(c, indexed, run)
              && forall n :: Selected(c, files, n, run, start, end) ==> c.size(files[n].artifact) <= COMPARISON_LIMIT
  {
    var n :| Selected(c, files, n, run, start, end);
  }

  /** A run's artifacts are none of the other runs'. */
  lemma OneMoreRun(c: Codec, files: map<nat, File>, start: Option<int>, end: Option<int>,
                   runs: set<string>, remaining: set<string>, done: set<nat>, run: string)
    requires forall n :: n in done <==> exists r :: r in runs - remaining && Selected(c, files, n, r, start, end)
    requires run in remaining && remaining <= runs
    ensures done !! SelectedNames(c, files, run, start, end)
    ensures forall n :: n in done + SelectedNames(c, files, run, start, end) <==>
              exists r :: r in runs - (remaining - {run}) && Selected(c, files, n, r, start, end)
  {
    var mine := SelectedNames(c, files, run, start, end);
    forall n
      ensures n in done + mine <==> exists r :: r in runs - (remaining - {run}) && Selected(c, files, n, r, start, end)
    {
      if n in done {
        var r :| r in runs - remaining && Selected(c, files, n, r, start, end);
        assert r in runs - (remaining - {run});
      } else if n in mine {
        assert run in runs - (remaining - {run}) && Selected(c, files, n, run, start, end);
      }
    }
  }

  lemma ReportMerged(c: Codec, files: map<nat, File>, indexed: seq<Metadata>, start: Option<int>, end: Option<int>,
                     runs: set<string>, remaining: set<string>, artifacts: seq<Artifact>, done: set<nat>, run: string,
                     more: seq<Artifact>)
    requires Reporting(c, files, indexed, start, end, runs, remaining, artifacts, done) && run in remaining
    requires Answerable(c, files, indexed, start, end, run)
    requires Yields(c, files, more, SelectedNames(c, files, run, start, end))
    ensures Reporting(c, files, indexed, start, end, runs, remaining - {run}, artifacts + more,
                      done + SelectedNames(c, files, run, start, end))
  {
    hide RunCollision, Selected, Stored, Answerable;
    var mine := SelectedNames(c, files, run, start, end);
    assert ArtifactNames(c, artifacts + more) == ArtifactNames(c, artifacts) + ArtifactNames(c, more);
    OneMoreRun(c, files, start, end, runs, remaining, done, run);
    EnumeratesAppend(ArtifactNames(c, artifacts), done, ArtifactNames(c, more), mine);
  }

  lemma ReportDone(c: Codec, files: map<nat, File>, indexed: seq<Metadata>, start: Option<int>, end: Option<int>,
                   runs: set<string>, artifacts: seq<Artifact>, done: set<nat>)
    requires Reporting(c, files, indexed, start, end, runs, {}, artifacts, done)
    requires |ReportedNames(c, files, start, end)| <= REPORT_LIMIT
    requires forall r :: r in runs <==> exists n :: Selected(c, files, n, r, start, end)
    ensures Reportable(c, files, indexed, start, end)
    ensures Yields(c, files, artifacts, ReportedNames(c, files, start, end))
  {
    hide RunCollision, Yields;
    assert runs - {} == runs;
    forall n ensures n in done <==> n in ReportedNames(c, files, start, end) {
      if n in ReportedNames(c, files, start, end) {
        assert Selected(c, files, n, files[n].artifact.run, start, end);
      }
    }
    assert done == ReportedNames(c, files, start, end);
  }

  // ---- what a query yields ----

  ghost function RunNames(c: Codec, files: map<nat, File>, run: string): (names: set<nat>) {
    set n | n in files && EnvelopeOf(c, files, n).Some? && OfRun(EnvelopeOf(c, files, n).value, run)
  }

  function ArtifactNames(c: Codec, artifacts: seq<Artifact>): (names: seq<nat>)
    ensures |names| == |artifacts|
  {
    seq<nat>(|artifacts|, i requires 0 <= i < |artifacts| => c.sha(artifacts[i].key))
  }

  /** The artifacts of exactly these names, each once. */
  ghost predicate Yields(c: Codec, files: map<nat, File>, artifacts: seq<Artifact>, names: set<nat>) {
    && Enumerates(ArtifactNames(c, artifacts), names)
    && (forall i :: 0 <= i < |artifacts| ==> Stored(c, files, artifacts[i]))
  }

  predicate Stored(c: Codec, files: map<nat, File>, a: Artifact) {
    c.sha(a.key) in files && files[c.sha(a.key)] == Envelope(a)
  }

  ghost predicate Loaded(c: Codec, files: map<nat, File>, values: seq<Metadata>, artifacts: seq<Artifact>) {
    && ArtifactNames(c, artifacts) == NameKeys(c, values)
    && (forall i :: 0 <= i < |artifacts| ==> Stored(c, files, artifacts[i]))
  }

  predicate SmallEnough(c: Codec, files: map<nat, File>, name: nat) {
    name in files && files[name].Envelope? && c.size(files[name].artifact) <= COMPARISON_LIMIT
  }

  ghost predicate Loadable(c: Codec, files: map<nat, File>, values: seq<Metadata>) {
    forall i :: 0 <= i < |values| ==> SmallEnough(c, files, c.sha(values[i].key))
  }

  function InRangeOf(values: seq<Metadata>, start: Option<int>, end: Option<int>): (kept: seq<Metadata>) {
    if values == [] then []
    else
      var m := |values| - 1;
      InRangeOf(values[..m], start, end)
      + if InRange(values[m].timeMin, values[m].timeMax, start, end) then [values[m]] else []
  }

  lemma KeptStep(values: seq<Metadata>, i: nat, start: Option<int>, end: Option<int>)
    requires i < |values|
    ensures InRangeOf(values[..i + 1], start, end)
         == InRangeOf(values[..i], start, end)
            + if InRange(values[i].timeMin, values[i].timeMax, start, end) then [values[i]] else []
  {
    assert values[..i + 1][..i] == values[..i];
  }

  lemma LoadedAppend(c: Codec, files: map<nat, File>, done: seq<Metadata>, loaded: seq<Artifact>,
                     pending: seq<Metadata>, more: seq<Artifact>)
    requires Loaded(c, files, done, loaded) && Loadable(c, files, done)
    requires Loaded(c, files, pending, more) && Loadable(c, files, pending)
    ensures Loaded(c, files, done + pending, loaded + more) && Loadable(c, files, done + pending)
  {
    assert NameKeys(c, done + pending) == NameKeys(c, done) + NameKeys(c, pending);
    assert ArtifactNames(c, loaded + more) == ArtifactNames(c, loaded) + ArtifactNames(c, more);
  }

  /** Filtering a collection by a property of its rows filters its names. */
  lemma {:induction false} KeptMembers(values: seq<Metadata>, start: Option<int>, end: Option<int>)
    ensures forall m :: m in InRangeOf(values, start, end) <==> m in values && InRange(m.timeMin, m.timeMax, start, end)
  {
    if values != [] {
      var n := |values| - 1;
      KeptMembers(values[..n], start, end);
      assert values == values[..n] + [values[n]];
    }
  }

  lemma {:induction false} KeptNames(c: Codec, values: seq<Metadata>, start: Option<int>, end: Option<int>)
    requires forall i, j :: 0 <= i < j < |values| ==> c.sha(values[i].key) != c.sha(values[j].key)
    ensures var kept := InRangeOf(values, start, end);
            && (forall m :: m in kept <==> m in values && InRange(m.timeMin, m.timeMax, start, end))
            && (forall i, j :: 0 <= i < j < |kept| ==> c.sha(kept[i].key) != c.sha(kept[j].key))
  {
    KeptMembers(values, start, end);
    if values != [] {
      var n := |values| - 1;
      KeptNames(c, values[..n], start, end);
      var front := InRangeOf(values[..n], start, end);
      forall i | 0 <= i < |front| ensures c.sha(front[i].key) != c.sha(values[n].key) {
        assert front[i] in front;
        assert front[i] in values[..n];
      }
    }
  }

  ghost function SelectedNames(c: Codec, files: map<nat, File>, run: string, start: Option<int>,
                               end: Option<int>): (names: set<nat>) {
    set n | n in files && Selected(c, files, n, run, start, end)
  }

  lemma SelectedOfRun(c: Codec, files: map<nat, File>, run: string, start: Option<int>, end: Option<int>, n: nat)
    ensures Selected(c, files, n, run, start, end) <==>
              n in RunNames(c, files, run)
              && InRange(EnvelopeOf(c, files, n).value.timeMin, EnvelopeOf(c, files, n).value.timeMax, start, end)
  {
  }

  lemma RunNamesPresent(c: Codec, files: map<nat, File>, run: string, n: nat)
    ensures n in RunNames(c, files, run) ==> n in files
    ensures EnvelopeOf(c, files, n).Some? ==> n in files
  {
  }

  lemma NothingLoaded(c: Codec, files: map<nat, File>, start: Option<int>, end: Option<int>)
    ensures Loaded(c, files, [], []) && Loadable(c, files, []) && InRangeOf([], start, end) == []
  {
  }

  lemma KeptCollected(c: Codec, files: map<nat, File>, values: seq<Metadata>, run: string, start: Option<int>,
                      end: Option<int>)
    requires Collected(c, files, values, RunNames(c, files, run))
    ensures Collected(c, files, InRangeOf(values, start, end), SelectedNames(c, files, run, start, end))
  {
    hide InRangeOf, EnvelopeOf, RunNames, Selected;
    var kept := InRangeOf(values, start, end);
    forall i, j | 0 <= i < j < |values| ensures c.sha(values[i].key) != c.sha(values[j].key) {
      assert NameKeys(c, values)[i] != NameKeys(c, values)[j];
    }
    KeptNames(c, values, start, end);
    forall i | 0 <= i < |kept| ensures EnvelopeOf(c, files, c.sha(kept[i].key)) == Some(kept[i]) {
      assert kept[i] in kept && kept[i] in values;
    }
    forall n | n in NameKeys(c, kept) ensures n in SelectedNames(c, files, run, start, end) {
      SelectedOfRun(c, files, run, start, end, n);
      var m := RowNamed(c, kept, n);
      NameOf(c, values, m);
      RunNamesPresent(c, files, run, n);
    }
    forall n | n in SelectedNames(c, files, run, start, end) ensures n in NameKeys(c, kept) {
      SelectedOfRun(c, files, run, start, end, n);
      var m := RowNamed(c, values, n);
      NameOf(c, kept, m);
    }
  }

  lemma NameOf(c: Codec, rows: seq<Metadata>, m: Metadata)
    ensures m in rows ==> c.sha(m.key) in NameKeys(c, rows)
  {
    if m in rows {
      var i :| 0 <= i < |rows| && rows[i] == m;
      assert NameKeys(c, rows)[i] in NameKeys(c, rows);
    }
  }

  lemma RowNamed(c: Codec, rows: seq<Metadata>, n: nat) returns (m: Metadata)
    requires n in NameKeys(c, rows)
    ensures m in rows && c.sha(m.key) == n
  {
    var i :| 0 <= i < |rows| && NameKeys(c, rows)[i] == n;
    m := rows[i];
  }

  lemma CollectedLoadable(c: Codec, files: map<nat, File>, values: seq<Metadata>, names: set<nat>)
    requires Collected(c, files, values, names)
    ensures Loadable(c, files, values) <==> forall n :: n in names ==> SmallEnough(c, files, n)
  {
    if forall n :: n in names ==> SmallEnough(c, files, n) {
      forall i | 0 <= i < |values| ensures SmallEnough(c, files, c.sha(values[i].key)) {
        assert NameKeys(c, values)[i] in NameKeys(c, values);
      }
    }
    if Loadable(c, files, values) {
      forall n | n in names ensures SmallEnough(c, files, n) {
        assert n in NameKeys(c, values);
        var i :| 0 <= i < |values| && NameKeys(c, values)[i] == n;
        assert SmallEnough(c, files, c.sha(values[i].key));
      }
    }
  }

  lemma KeptLoadable(c: Codec, files: map<nat, File>, values: seq<Metadata>, run: string, start: Option<int>,
                     end: Option<int>)
    requires Collected(c, files, values, RunNames(c, files, run))
    ensures Loadable(c, files, InRangeOf(values, start, end)) <==>
              forall n :: Selected(c, files, n, run, start, end) ==> c.size(files[n].artifact) <= COMPARISON_LIMIT
  {
    KeptCollected(c, files, values, run, start, end);
    CollectedLoadable(c, files, InRangeOf(values, start, end), SelectedNames(c, files, run, start, end));
    assert forall n :: n in SelectedNames(c, files, run, start, end) <==> Selected(c, files, n, run, start, end);
  }

  lemma {:induction false} KeptGrows(values: seq<Metadata>, i: nat, start: Option<int>, end: Option<int>)
    requires i <= |values|
    ensures InRangeOf(values[..i], start, end) <= InRangeOf(values, start, end)
    ensures forall m :: m in InRangeOf(values, start, end) ==> m in values
  {
    if i < |values| {
      KeptGrows(values[..|values| - 1], i, start, end);
      assert values[..|values| - 1][..i] == values[..i];
    } else {
      assert values[..i] == values;
      KeptMembers(values, start, end);
    }
  }

  lemma KeptPrefix(c: Codec, files: map<nat, File>, values: seq<Metadata>, i: nat, start: Option<int>, end: Option<int>,
                   done: seq<Metadata>, pending: seq<Metadata>, names: set<nat>)
    requires i <= |values| && done + pending == InRangeOf(values[..i], start, end)
    requires Collected(c, files, values, names)
    ensures forall k :: 0 <= k < |pending| ==> EnvelopeOf(c, files, c.sha(pending[k].key)) == Some(pending[k])
    ensures Loadable(c, files, InRangeOf(values, start, end)) ==> Loadable(c, files, pending)
  {
    hide InRangeOf, EnvelopeOf;
    var kept := InRangeOf(values, start, end);
    KeptGrows(values, i, start, end);
    forall k | 0 <= k < |pending| ensures pending[k] in values && kept[|done| + k] == pending[k] {
      assert (done + pending)[|done| + k] == pending[k];
      assert kept[|done| + k] in kept;
    }
  }

  lemma LoadedYields(c: Codec, files: map<nat, File>, values: seq<Metadata>, artifacts: seq<Artifact>, names: set<nat>)
    requires Loaded(c, files, values, artifacts) && Collected(c, files, values, names)
    ensures Yields(c, files, artifacts, names)
  {
  }

  // ---- the run's rows and tail together ----

  lemma {:induction false} RunRowMembers(rows: seq<Metadata>, run: string)
    ensures forall m :: m in RowsOfRun(rows, run) <==> m in rows && OfRun(m, run)
  {
    if rows != [] {
      var n := |rows| - 1;
      RunRowMembers(rows[..n], run);
      assert rows == rows[..n] + [rows[n]];
    }
  }

  lemma {:induction false} RunRowNames(c: Codec, rows: seq<Metadata>, run: string)
    requires forall i, j :: 0 <= i < j < |rows| ==> c.sha(rows[i].key) != c.sha(rows[j].key)
    ensures var mine := RowsOfRun(rows, run);
            && (forall m :: m in mine <==> m in rows && OfRun(m, run))
            && (forall i, j :: 0 <= i < j < |mine| ==> c.sha(mine[i].key) != c.sha(mine[j].key))
  {
    RunRowMembers(rows, run);
    if rows != [] {
      var n := |rows| - 1;
      RunRowNames(c, rows[..n], run);
      var front := RowsOfRun(rows[..n], run);
      forall i | 0 <= i < |front| ensures c.sha(front[i].key) != c.sha(rows[n].key) {
        assert front[i] in front;
        assert front[i] in rows[..n];
      }
    }
  }

  lemma RunRowsCollected(c: Codec, files: map<nat, File>, rows: seq<Metadata>, names: set<nat>, run: string)
    requires Collected(c, files, rows, names)
    ensures Collected(c, files, RowsOfRun(rows, run), names * RunNames(c, files, run))
  {
    hide RowsOfRun, EnvelopeOf;
    var mine := RowsOfRun(rows, run);
    forall i, j | 0 <= i < j < |rows| ensures c.sha(rows[i].key) != c.sha(rows[j].key) {
      assert NameKeys(c, rows)[i] != NameKeys(c, rows)[j];
    }
    RunRowNames(c, rows, run);
    forall i | 0 <= i < |mine| ensures EnvelopeOf(c, files, c.sha(mine[i].key)) == Some(mine[i]) {
      assert mine[i] in mine && mine[i] in rows;
    }
    forall n | n in NameKeys(c, mine) ensures n in names * RunNames(c, files, run) {
      var m := RowNamed(c, mine, n);
      NameOf(c, rows, m);
      RunNamesPresent(c, files, run, n);
    }
    forall n | n in names * RunNames(c, files, run) ensures n in NameKeys(c, mine) {
      var m := RowNamed(c, rows, n);
      NameOf(c, mine, m);
    }
  }

  lemma RunCollected(c: Codec, files: map<nat, File>, indexed: seq<Metadata>, tail: seq<nat>, run: string,
                     more: seq<Metadata>)
    requires c.FaithfulInventory(files) && Collected(c, files, indexed, IndexNames(c, indexed))
    requires IndexNames(c, indexed) <= files.Keys && Enumerates(tail, files.Keys - IndexNames(c, indexed))
    requires var names := TailOfRun(c, files, tail, run);
             |more| == |names| && forall i :: 0 <= i < |names| ==> EnvelopeOf(c, files, names[i]) == Some(more[i])
    ensures Collected(c, files, RowsOfRun(indexed, run) + more, RunNames(c, files, run))
  {
    hide RowsOfRun, TailOfRun, EnvelopeOf, Collected;
    var known, mine := IndexNames(c, indexed), TailOfRun(c, files, tail, run);
    RunRowsCollected(c, files, indexed, known, run);
    TailMember(c, files, tail, run);
    TailDistinct(c, files, tail, run);
    CollectedAppend(c, files, RowsOfRun(indexed, run), known * RunNames(c, files, run), mine, more);
    assert known * RunNames(c, files, run) + (set n | n in mine) == RunNames(c, files, run);
  }

  /** Scanned names divided into those the index knows and the rest, in order. */
  ghost predicate Divided(scanned: seq<nat>, known: set<nat>, found: set<nat>, rest: seq<nat>) {
    && (forall n :: n in found <==> n in scanned && n in known)
    && (forall n :: n in rest <==> n in scanned && n !in known)
    && (forall i, j :: 0 <= i < j < |rest| ==> rest[i] != rest[j])
  }

  /** One pass over the listing: count the names the index knows and keep the others, up to the tail limit. */
  method Divide(g: Generation, names: seq<nat>, ghost keys: set<nat>, ghost known: set<nat>)
    returns (r: Option<seq<nat>>, matched: nat)
    requires 0 <= g.manifest.count && |g.names| == g.manifest.count * 32 && Ascending(g.names, 32, g.manifest.count)
    requires forall k :: k in Keys(g) <==> k in known
    requires Enumerates(names, keys)
    ensures r.Some? <==> |keys - known| <= TAIL_LIMIT
    ensures r.Some? ==> Enumerates(r.value, keys - known) && |r.value| <= TAIL_LIMIT && matched == |known * keys|
  {
    hide Keys, Ascending;
    var rest: seq<nat> := [];
    matched := 0;
    ghost var found: set<nat> := {};
    for i := 0 to |names|
      invariant matched == |found| && |rest| <= TAIL_LIMIT
      invariant Divided(names[..i], known, found, rest)
    {
      hide Divided;
      DivideOne(names, i, known, found, rest);
      var present := Contains(g, names[i]);
      if present {
        matched, found := matched + 1, found + {names[i]};
      } else {
        if |rest| >= TAIL_LIMIT {
          DividedSize(names, i + 1, keys, known, found, rest + [names[i]]);
          return None, matched;
        }
        rest := rest + [names[i]];
      }
    }
    assert names[..|names|] == names;
    DividedSize(names, |names|, keys, known, found, rest);
    r := Some(rest);
  }

  /** The same pass without a limit: how many names the index knows, and how many it does not. */
  method Unmatched(g: Generation, names: seq<nat>, ghost keys: set<nat>, ghost known: set<nat>)
    returns (rest: nat, matched: nat)
    requires 0 <= g.manifest.count && |g.names| == g.manifest.count * 32 && Ascending(g.names, 32, g.manifest.count)
    requires forall k :: k in Keys(g) <==> k in known
    requires Enumerates(names, keys)
    ensures matched == |known * keys| && rest == |keys - known|
  {
    hide Keys, Ascending;
    rest, matched := 0, 0;
    ghost var found: set<nat>, others: seq<nat> := {}, [];
    for i := 0 to |names|
      invariant matched == |found| && rest == |others|
      invariant Divided(names[..i], known, found, others)
    {
      hide Divided;
      DivideOne(names, i, known, found, others);
      var present := Contains(g, names[i]);
      if present {
        matched, found := matched + 1, found + {names[i]};
      } else {
        rest, others := rest + 1, others + [names[i]];
      }
    }
    DividedSize(names, |names|, keys, known, found, others);
  }

  lemma AllMatched(known: set<nat>, keys: set<nat>)
    ensures |known * keys| == |known| <==> known <= keys
  {
    if |known * keys| == |known| {
      Enumeration.EqualBySize(known * keys, known);
    }
    if known <= keys {
      assert known * keys == known;
    }
  }

  lemma DivideOne(names: seq<nat>, i: nat, known: set<nat>, found: set<nat>, rest: seq<nat>)
    requires i < |names| && Divided(names[..i], known, found, rest)
    requires forall k, l :: 0 <= k < l < |names| ==> names[k] != names[l]
    ensures names[i] !in found && names[i] !in rest
    ensures names[i] in known ==> Divided(names[..i + 1], known, found + {names[i]}, rest)
    ensures names[i] !in known ==> Divided(names[..i + 1], known, found, rest + [names[i]])
  {
    assert names[..i + 1] == names[..i] + [names[i]];
  }

  lemma DividedSize(names: seq<nat>, n: nat, keys: set<nat>, known: set<nat>, found: set<nat>, rest: seq<nat>)
    requires Enumerates(names, keys) && n <= |names|
    requires Divided(names[..n], known, found, rest)
    ensures |rest| <= |keys - known|
    ensures n == |names| ==> found == known * keys && Enumerates(rest, keys - known) && |rest| == |keys - known|
  {
    var others := (set m | m in rest);
    Enumeration.EnumerationLength(rest, others);
    assert others <= keys - known;
    Enumeration.SubsetSize(others, keys - known);
    if n == |names| {
      assert names[..n] == names;
      assert others == keys - known;
    }
  }
}
