/**
  The best-effort outcome history: a reader that takes no lock, reads five kinds of documents while others write
  them, and says afterwards whether what it collected is one consistent snapshot.
 */
module HistoryReader {
  import opened SharedDirectory
  import opened Wrappers

  const KINDS: set<Kind> := {Evaluations, Observations, Evidence, Executions, Decisions}

  lemma AllKinds()
    ensures forall kind: Kind :: kind in KINDS
  {
    forall kind: Kind ensures kind in KINDS {
      match kind case Evaluations => case Observations => case Evidence => case Executions => case Decisions =>
    }
  }

  const MAX_DOCUMENT_BYTES: nat := 16 * 1024 * 1024

  /** What a decoded document is for the joins: only evaluations name other documents. */
  datatype Value = Value(observationId: string, decisionId: Option<string>, executionId: Option<string>, body: string)

  datatype Decoded = Document(value: Value) | FieldLab(ambiguous: bool) | NewerVersion | Corrupt

  datatype Digest = Sha(hash: string) | TooLarge(marker: Signature) | Absent | InvalidIdentity | Unread

  datatype Code = InvalidDocumentIdentity | DocumentTooLarge | MissingJoin | UnreadableDocument | FieldLabExcluded
                | ExpectedUserDocumentExcluded | IncompatibleVersion | CorruptDocument | MissingUserObservation
                    | DatasetChanged

  datatype Diagnostic = Diagnostic(code: Code, path: Path)

  /** What a read accumulates. */
  datatype Collection = Collection(values: map<Path, Value>, manifest: map<Path, Digest>, diagnostics: seq<Diagnostic>,
                                   changed: bool)

  datatype Snapshot = Snapshot(found: Collection, complete: bool, stable: bool)

  /** What a reader is given: how a document is decoded, how one is hashed, and which names are identities. */
  datatype Rules = Rules(decode: (Path, string) -> Decoded, sha: string -> string, valid: Path -> bool)

  predicate Blocking(c: Code) {
    c != IncompatibleVersion && c != FieldLabExcluded
  }

  // ---- when nothing changed ----

  ghost predicate ListedWithin(history: seq<Files>, low: int, high: int, kind: Kind, names: set<Path>) {
    exists t :: 0 <= t < |history| && low <= t <= high && Names(history[t], kind) == names
  }

  /** Both passes listed the same names, and every listed file had one signature in both. */
  ghost predicate SameEvidence(history: seq<Files>, first: int, last: int, inventories: map<Kind, set<Path>>,
                               metadata: map<Path, Option<Signature>>) {
    && (forall kind: Kind :: kind in inventories)
    && (forall kind :: kind in inventories ==>
          && ListedWithin(history, 0, first, kind, inventories[kind])
          && ListedWithin(history, last, |history| - 1, kind, inventories[kind]))
    && (forall p :: p in metadata && metadata[p].Some? ==>
          && SignedWithin(history, 0, first, p, metadata[p].value)
          && SignedWithin(history, last, |history| - 1, p, metadata[p].value))
  }

  /** The listed files that the first pass could not examine. */
  function Missed(inventories: map<Kind, set<Path>>, metadata: map<Path, Option<Signature>>): set<Path> {
    set kind, p | kind in inventories && p in inventories[kind] && !(p in metadata && metadata[p].Some?) :: p
  }

  ghost predicate AbsentSince(history: seq<Files>, since: int, p: Path) {
    exists t :: 0 <= t < |history| && since <= t && p !in history[t]
  }

  /** Only a blind file, or one that was not there when it was examined, has no signature. */
  ghost predicate Looked(history: seq<Files>, since: int, names: set<Path>, metadata: map<Path, Option<Signature>>,
                         blind: set<Path>) {
    forall p :: p in names ==> p in blind || (p in metadata && (metadata[p].Some? || AbsentSince(history, since, p)))
  }

  /** Every signature was seen at some moment since. */
  ghost predicate AllSigned(history: seq<Files>, since: int, metadata: map<Path, Option<Signature>>) {
    forall p :: p in metadata && metadata[p].Some? ==> SignedWithin(history, since, |history| - 1, p, metadata[p].value)
  }

  /** One more file has just been examined. */
  lemma LookedLater(past: seq<Files>, history: seq<Files>, since: int, names: set<Path>,
                    metadata: map<Path, Option<Signature>>, blind: set<Path>, p: Path, signature: Option<Signature>)
    requires past <= history && Looked(past, since, names, metadata, blind) && since < |history| && history != []
    requires signature.Some? || p in blind || p !in history[|history| - 1]
    ensures Looked(history, since, names + {p}, metadata[p := signature], blind)
  {
    forall q | q in names && AbsentSince(past, since, q) ensures AbsentSince(history, since, q) {
      var t :| 0 <= t < |past| && since <= t && q !in past[t];
      assert q !in history[t];
    }
    assert signature.None? && p !in blind ==> AbsentSince(history, since, p);
  }

  lemma SignedMore(past: seq<Files>, history: seq<Files>, since: int, metadata: map<Path, Option<Signature>>, p: Path,
                   signature: Option<Signature>)
    requires past <= history && AllSigned(past, since, metadata) && since < |history|
    requires signature.Some? ==> SignedAt(history, |history| - 1, p, signature.value)
    ensures AllSigned(history, since, metadata[p := signature])
  {
    assert signature.Some? ==> SignedWithin(history, since, |history| - 1, p, signature.value);
    hide SignedAt, SignedWithin;
    forall q | q in metadata && metadata[q].Some?
      ensures SignedWithin(history, since, |history| - 1, q, metadata[q].value)
    {
      SignedLater(past, history, since, q, metadata[q].value);
    }
  }

  /** Where nothing is deleted, every file that was listed is there when it is examined. */
  lemma MissedIsBlind(listedAt: seq<Files>, history: seq<Files>, inventories: map<Kind, set<Path>>,
                      metadata: map<Path, Option<Signature>>, blind: set<Path>)
    requires Evolves(history, false) && listedAt != [] && listedAt <= history
    requires forall kind :: kind in inventories ==> ListedWithin(listedAt, 0, |listedAt| - 1, kind, inventories[kind])
    requires forall kind :: kind in inventories ==> Looked(history, |listedAt| - 1, inventories[kind], metadata, blind)
    ensures Missed(inventories, metadata) <= blind
  {
    hide Evolves;
    forall kind, p | kind in inventories && p in inventories[kind] && p !in blind
      ensures p in metadata && metadata[p].Some?
    {
      var i :| 0 <= i <= |listedAt| - 1 && Names(listedAt[i], kind) == inventories[kind];
      assert p in history[i];
      if AbsentSince(history, |listedAt| - 1, p) {
        var t :| 0 <= t < |history| && |listedAt| - 1 <= t && p !in history[t];
        Stays(history, i, t, p);
      }
    }
  }

  predicate SameFile(a: Files, b: Files, p: Path) {
    (p in a <==> p in b) && (p in a ==> b[p] == a[p])
  }

  /** The file was the same, or equally absent, at every moment from `first` to `last`. */
  ghost predicate Still(history: seq<Files>, first: int, last: int, p: Path) {
    0 <= first <= last < |history| && forall t :: first <= t <= last ==> SameFile(history[first], history[t], p)
  }

  /**
    Two agreeing passes bracket a still store, from the end of the first pass to the start of the second: every file
    with a signature stood still, and where nothing is deleted every other file as well, but for those that were
    listed and could not be examined.
   */
  lemma AgreeingPassesFreeze(history: seq<Files>, deletes: bool, first: nat, last: nat,
                             inventories: map<Kind, set<Path>>, metadata: map<Path, Option<Signature>>)
    requires Evolves(history, deletes) && first <= last < |history|
    requires SameEvidence(history, first, last, inventories, metadata)
    ensures forall p :: p in metadata && metadata[p].Some? ==> Still(history, first, last, p)
    ensures !deletes ==> forall p: Path :: p !in Missed(inventories, metadata) ==> Still(history, first, last, p)
    ensures !deletes ==> forall kind, t :: kind in inventories && first <= t <= last ==>
              Names(history[t], kind) == inventories[kind]
  {
    hide Evolves, Still, SignedWithin, ListedWithin, Names, Missed;
    forall p | p in metadata && metadata[p].Some? ensures Still(history, first, last, p) {
      SignedIsStill(history, deletes, first, last, p, metadata[p].value);
    }
    if !deletes {
      forall p: Path | p !in Missed(inventories, metadata) ensures Still(history, first, last, p) {
        NotMissed(inventories, metadata, p);
        if p !in inventories[p.kind] {
          UnlistedIsStill(history, first, last, inventories, metadata, p);
        }
      }
      forall kind, t | kind in inventories && first <= t <= last ensures Names(history[t], kind) == inventories[kind] {
        SameNames(history, first, last, inventories, metadata, kind, t);
      }
    }
  }

  lemma NotMissed(inventories: map<Kind, set<Path>>, metadata: map<Path, Option<Signature>>, p: Path)
    requires p !in Missed(inventories, metadata) && p.kind in inventories
    ensures p in inventories[p.kind] ==> p in metadata && metadata[p].Some?
  {
  }

  lemma SignedIsStill(history: seq<Files>, deletes: bool, first: nat, last: nat, p: Path, signature: Signature)
    requires Evolves(history, deletes) && first <= last < |history|
    requires SignedWithin(history, 0, first, p, signature) && SignedWithin(history, last, |history| - 1, p, signature)
    ensures Still(history, first, last, p)
  {
    hide Evolves;
    var a :| 0 <= a <= first && SignedAt(history, a, p, signature);
    var b :| last <= b <= |history| - 1 && SignedAt(history, b, p, signature);
    Constant(history, deletes, a, first, b, p, signature);
    forall t | first <= t <= last ensures SameFile(history[first], history[t], p) {
      Constant(history, deletes, a, t, b, p, signature);
    }
  }

  lemma UnlistedIsStill(history: seq<Files>, first: nat, last: nat, inventories: map<Kind, set<Path>>,
                        metadata: map<Path, Option<Signature>>, p: Path)
    requires Evolves(history, false) && first <= last < |history|
    requires SameEvidence(history, first, last, inventories, metadata) && p !in inventories[p.kind]
    ensures Still(history, first, last, p)
  {
    hide Evolves, SignedWithin;
    forall t | first <= t <= last ensures p !in history[t] {
      SameNames(history, first, last, inventories, metadata, p.kind, t);
      assert p !in Names(history[t], p.kind);
    }
  }

  lemma SameNames(history: seq<Files>, first: nat, last: nat, inventories: map<Kind, set<Path>>,
                  metadata: map<Path, Option<Signature>>, kind: Kind, t: nat)
    requires Evolves(history, false) && first <= t <= last < |history|
    requires SameEvidence(history, first, last, inventories, metadata)
    ensures Names(history[t], kind) == inventories[kind]
  {
    var names := inventories[kind];
    var i :| 0 <= i < |history| && 0 <= i <= first && Names(history[i], kind) == names;
    var k :| 0 <= k < |history| && last <= k <= |history| - 1 && Names(history[k], kind) == names;
    hide Evolves, SameEvidence;
    forall p | p in names ensures p in history[t] {
      assert p in Names(history[i], kind);
      Stays(history, i, t, p);
    }
    forall p | p in Names(history[t], kind) ensures p in names {
      Stays(history, t, k, p);
      assert p in Names(history[k], kind);
    }
  }

  // ---- what the reader has seen ----

  function DigestIn(rules: Rules, files: Files, p: Path): Digest {
    if !rules.valid(p) then InvalidIdentity
    else if p !in files then Absent
    else if |files[p].document| > MAX_DOCUMENT_BYTES then TooLarge(files[p].signature)
    else Sha(rules.sha(files[p].document))
  }

  /** A diagnostic that excuses a missing document says something about the file. */
  ghost predicate Justified(files: Files, rules: Rules, d: Diagnostic) {
    match d.code
    case FieldLabExcluded => d.path in files && rules.decode(d.path, files[d.path].document).FieldLab?
    case IncompatibleVersion => d.path in files && rules.decode(d.path, files[d.path].document).NewerVersion?
    case _ => true
  }

  ghost predicate Excused(files: Files, rules: Rules, c: Collection, p: Path) {
    forall i :: 0 <= i < |c.diagnostics| && c.diagnostics[i].path == p ==> Justified(files, rules, c.diagnostics[i])
  }

  /**
    All that the collection says of one file, in its values, its digests and its diagnostics, is true of these files.
   */
  ghost predicate Says(files: Files, rules: Rules, c: Collection, p: Path) {
    && (p in c.values ==> p in files && rules.decode(p, files[p].document) == Document(c.values[p]))
    && (p in c.manifest ==> c.manifest[p] == Unread || c.manifest[p] == DigestIn(rules, files, p))
    && Excused(files, rules, c, p)
  }

  ghost predicate SaysSince(history: seq<Files>, rules: Rules, since: int, c: Collection, p: Path) {
    0 <= since && exists t :: since <= t < |history| && Says(history[t], rules, c, p)
  }

  /**
    For every file there is a moment when all that the collection says of it was true, unless it was seen to change.
   */
  ghost predicate Seen(history: seq<Files>, rules: Rules, since: int, c: Collection) {
    !c.changed ==> forall p: Path :: SaysSince(history, rules, since, c, p)
  }

  ghost predicate Explains(d: Diagnostic, p: Path) {
    d.path == p && (d.code == IncompatibleVersion ==> p.kind == Evaluations)
  }

  /** A document is returned, or a diagnostic says why not. */
  ghost predicate Accounted(c: Collection, p: Path) {
    p in c.values || exists i :: 0 <= i < |c.diagnostics| && Explains(c.diagnostics[i], p)
  }

  /** A document that has not been loaded yet is neither returned nor excused. */
  ghost predicate Untried(c: Collection, p: Path) {
    p !in c.values && forall i :: 0 <= i < |c.diagnostics| && c.diagnostics[i].path == p ==>
          Blocking(c.diagnostics[i].code)
  }

  /** Of a name that is no identity nothing is said that the contents of a file could change. */
  ghost predicate Silent(c: Collection, p: Path) {
    Untried(c, p) && (p in c.manifest ==> c.manifest[p] == Unread || c.manifest[p] == InvalidIdentity)
  }

  /** The files whose contents a collection says something about. */
  function Mentioned(c: Collection): set<Path> {
    c.values.Keys + c.manifest.Keys
    + set i | 0 <= i < |c.diagnostics| && !Blocking(c.diagnostics[i].code) :: c.diagnostics[i].path
  }

  /**
    The documents that the reader speaks of although it could not examine them, or, where files are deleted, did not
    list them.
   */
  function Moving(rules: Rules, inventories: map<Kind, set<Path>>, metadata: map<Path, Option<Signature>>,
                  c: Collection, deletes: bool): set<Path>
  {
    set p | p in Mentioned(c) && rules.valid(p)
            && if deletes then !(p in metadata && metadata[p].Some?) else p in Missed(inventories, metadata)
  }

  /** The documents an evaluation refers to. */
  function Joins(e: Value): set<Path> {
    {Path(Observations, e.observationId)}
    + (if e.decisionId.Some? then {Path(Evidence, e.decisionId.value)} else {})
    + (if e.executionId.Some? then {Path(Executions, e.executionId.value)} else {})
    + (if e.executionId.Some? && e.decisionId.Some? then {Path(Decisions, e.decisionId.value)} else {})
  }

  // ---- what a stable snapshot is ----

  /** Everything returned is what the store held at moment `t`. */
  ghost predicate HeldAt(history: seq<Files>, rules: Rules, t: int, s: Collection) {
    && 0 <= t < |history|
    && (forall p :: p in s.values ==>
        p in history[t] && rules.decode(p, history[t][p].document) == Document(s.values[p]))
    && (forall p :: p in s.manifest ==>
          s.manifest[p] == Unread || s.manifest[p] == DigestIn(rules, history[t], p))
  }

  /** Nothing but excluded and newer documents is left out, and every reference of an evaluation is resolved. */
  ghost predicate WholeAt(history: seq<Files>, rules: Rules, t: int, s: Collection) {
    && 0 <= t < |history|
    && (forall p :: p in history[t] && (p.kind == Evaluations || p.kind == Observations) ==>
          p in s.values || rules.decode(p, history[t][p].document).FieldLab?
              || rules.decode(p, history[t][p].document).NewerVersion?)
    && (forall p, j :: p in s.values && p.kind == Evaluations && j in Joins(s.values[p]) ==> j in s.values)
  }

  lemma SaysAlike(a: Files, b: Files, rules: Rules, c: Collection, p: Path)
    requires Says(a, rules, c, p) && (p in a <==> p in b) && (p in a ==> a[p] == b[p])
    ensures Says(b, rules, c, p)
  {
  }

  lemma SaysNothing(files: Files, rules: Rules, c: Collection, p: Path)
    requires p !in Mentioned(c) || (!rules.valid(p) && Silent(c, p))
    ensures Says(files, rules, c, p)
  {
    forall i | 0 <= i < |c.diagnostics| && c.diagnostics[i].path == p
      ensures Justified(files, rules, c.diagnostics[i])
    {
      assert Blocking(c.diagnostics[i].code);
    }
  }

  lemma SaysStill(history: seq<Files>, rules: Rules, first: int, last: int, c: Collection, p: Path, t: int)
    requires Still(history, first, last, p) && SaysSince(history[..last + 1], rules, first, c, p) && first <= t <= last
    ensures Says(history[t], rules, c, p)
  {
    var k :| first <= k < last + 1 && Says(history[..last + 1][k], rules, c, p);
    assert SameFile(history[first], history[k], p) && SameFile(history[first], history[t], p);
    SaysAlike(history[k], history[t], rules, c, p);
  }

  /**
    While all documents that the reader speaks of but one stand still, everything it says was true at the moment when
    that one was read.
   */
  lemma SaidAtOnce(history: seq<Files>, rules: Rules, first: int, last: int, moving: set<Path>, c: Collection)
    returns (t: int)
    requires 0 <= first <= last < |history| && |moving| <= 1
    requires Seen(history[..last + 1], rules, first, c) && !c.changed && forall p: Path :: !rules.valid(p) ==>
               Silent(c, p)
    requires forall p :: p in Mentioned(c) && rules.valid(p) && p !in moving ==> Still(history, first, last, p)
    ensures first <= t <= last && forall p: Path :: Says(history[t], rules, c, p)
  {
    t := first;
    if moving != {} {
      var odd :| odd in moving;
      OnlyOne(moving, odd);
      assert SaysSince(history[..last + 1], rules, first, c, odd);
      t :| first <= t < last + 1 && Says(history[..last + 1][t], rules, c, odd);
    }
    hide Says, Silent;
    forall p: Path | p !in moving ensures Says(history[t], rules, c, p) {
      if p in Mentioned(c) && rules.valid(p) {
        assert SaysSince(history[..last + 1], rules, first, c, p);
        SaysStill(history, rules, first, last, c, p, t);
      } else {
        SaysNothing(history[t], rules, c, p);
      }
    }
  }

  lemma OnlyOne(blind: set<Path>, odd: Path)
    requires |blind| <= 1 && odd in blind
    ensures blind == {odd}
  {
    assert blind == {odd} + (blind - {odd});
  }

  predicate NoneBlocking(diagnostics: seq<Diagnostic>) {
    forall i | 0 <= i < |diagnostics| :: !Blocking(diagnostics[i].code)
  }

  /** The joins of the collected evaluations are collected, or a blocking diagnostic stands. */
  ghost predicate Joined(values: map<Path, Value>, diagnostics: seq<Diagnostic>) {
    NoneBlocking(diagnostics) ==>
      forall p, j :: p in values && p.kind == Evaluations && j in Joins(values[p]) ==> j in values
  }

  lemma SaidIsHeld(history: seq<Files>, rules: Rules, t: int, c: Collection)
    requires 0 <= t < |history| && forall p: Path :: Says(history[t], rules, c, p)
    ensures HeldAt(history, rules, t, c)
  {
    forall p | p in c.values
      ensures p in history[t] && rules.decode(p, history[t][p].document) == Document(c.values[p])
    {
      assert Says(history[t], rules, c, p);
    }
    forall p | p in c.manifest
      ensures c.manifest[p] == Unread || c.manifest[p] == DigestIn(rules, history[t], p)
    {
      assert Says(history[t], rules, c, p);
    }
  }

  lemma WholeAtOnce(history: seq<Files>, rules: Rules, t: nat, inventories: map<Kind, set<Path>>, c: Collection)
    requires t < |history| && (forall p: Path :: Says(history[t], rules, c, p))
    requires NoneBlocking(c.diagnostics) && Joined(c.values, c.diagnostics)
    requires forall kind: Kind :: kind in inventories && Names(history[t], kind) == inventories[kind]
    requires forall p :: p in inventories[Evaluations] + inventories[Observations] ==> Accounted(c, p)
    ensures WholeAt(history, rules, t, c)
  {
    forall p | p in history[t] && (p.kind == Evaluations || p.kind == Observations) && p !in c.values
      ensures rules.decode(p, history[t][p].document).FieldLab? || rules.decode(p, history[t][p].document).NewerVersion?
    {
      assert p in Names(history[t], p.kind);
      assert Accounted(c, p) && Says(history[t], rules, c, p);
      var i :| 0 <= i < |c.diagnostics| && Explains(c.diagnostics[i], p);
      assert !Blocking(c.diagnostics[i].code) && Justified(history[t], rules, c.diagnostics[i]);
    }
  }

  // ---- the read ----

  /** The invariant of a read that finished its first pass at `since` and has tried to load the documents `done`. */
  ghost predicate Collected(history: seq<Files>, rules: Rules, since: int, c: Collection, done: set<Path>) {
    && Seen(history, rules, since, c)
    && (forall p :: p in done ==> Accounted(c, p))
    && (forall p: Path :: p !in done ==> Untried(c, p))
    && (forall p: Path :: !rules.valid(p) ==> Silent(c, p))
  }

  lemma SaysLater(past: seq<Files>, history: seq<Files>, rules: Rules, since: int, c: Collection, p: Path)
    requires past <= history && SaysSince(past, rules, since, c, p)
    ensures SaysSince(history, rules, since, c, p)
  {
    var t :| since <= t < |past| && Says(past[t], rules, c, p);
    assert history[t] == past[t];
  }

  lemma CollectedLater(past: seq<Files>, history: seq<Files>, rules: Rules, since: int, c: Collection, done: set<Path>)
    requires past <= history && Collected(past, rules, since, c, done)
    ensures Collected(history, rules, since, c, done)
  {
    hide Accounted, Untried, SaysSince, Silent;
    if !c.changed {
      forall p: Path ensures SaysSince(history, rules, since, c, p) {
        SaysLater(past, history, rules, since, c, p);
      }
    }
  }

  /** A step about one file: the collection says the same of every other file, and forgets nothing. */
  ghost predicate StepAt(c: Collection, next: Collection, p: Path) {
    && (c.changed ==> next.changed) && c.values.Keys <= next.values.Keys
    && (forall q :: q != p ==> (q in next.values <==> q in c.values)
                               && (q in c.values ==> next.values[q] == c.values[q]))
    && (forall q :: q != p ==> (q in next.manifest <==> q in c.manifest)
                               && (q in c.manifest ==> next.manifest[q] == c.manifest[q]))
    && c.diagnostics <= next.diagnostics
    && (forall i :: |c.diagnostics| <= i < |next.diagnostics| ==> next.diagnostics[i].path == p)
  }

  lemma SaysElsewhere(files: Files, rules: Rules, c: Collection, next: Collection, p: Path, q: Path)
    requires StepAt(c, next, p) && q != p && Says(files, rules, c, q)
    ensures Says(files, rules, next, q)
  {
    forall i | 0 <= i < |next.diagnostics| && next.diagnostics[i].path == q
      ensures Justified(files, rules, next.diagnostics[i])
    {
      assert i < |c.diagnostics| && next.diagnostics[i] == c.diagnostics[i];
    }
  }

  lemma SeenStep(past: seq<Files>, history: seq<Files>, rules: Rules, since: int, c: Collection,
                 next: Collection, p: Path)
    requires past <= history && Seen(past, rules, since, c) && StepAt(c, next, p)
    requires next.changed || SaysSince(history, rules, since, next, p)
    ensures Seen(history, rules, since, next)
  {
    if !next.changed {
      forall q: Path | q != p ensures SaysSince(history, rules, since, next, q) {
        assert SaysSince(past, rules, since, c, q);
        var t :| since <= t < |past| && Says(past[t], rules, c, q);
        SaysElsewhere(past[t], rules, c, next, p, q);
        assert history[t] == past[t];
      }
    }
  }

  lemma AccountedStep(c: Collection, next: Collection, p: Path, q: Path)
    requires StepAt(c, next, p) && Accounted(c, q)
    ensures Accounted(next, q)
  {
    if q !in c.values {
      var i :| 0 <= i < |c.diagnostics| && Explains(c.diagnostics[i], q);
      assert next.diagnostics[i] == c.diagnostics[i];
    }
  }

  lemma UntriedStep(c: Collection, next: Collection, p: Path, q: Path)
    requires StepAt(c, next, p) && q != p && Untried(c, q)
    ensures Untried(next, q)
  {
    forall i | 0 <= i < |next.diagnostics| && next.diagnostics[i].path == q ensures Blocking(next.diagnostics[i].code) {
      assert i < |c.diagnostics| && next.diagnostics[i] == c.diagnostics[i];
    }
  }

  lemma SilentStep(c: Collection, next: Collection, p: Path, q: Path)
    requires StepAt(c, next, p) && q != p && Silent(c, q)
    ensures Silent(next, q)
  {
    UntriedStep(c, next, p, q);
  }

  /** One more document has been tried. */
  lemma TriedStep(past: seq<Files>, history: seq<Files>, rules: Rules, since: int, c: Collection,
                  next: Collection, done: set<Path>, p: Path)
    requires past <= history && Collected(past, rules, since, c, done) && StepAt(c, next, p)
    requires next.changed || SaysSince(history, rules, since, next, p)
    requires Accounted(next, p) && (rules.valid(p) || Silent(next, p))
    ensures Collected(history, rules, since, next, done + {p})
  {
    SeenStep(past, history, rules, since, c, next, p);
    hide Seen, Accounted, Untried, StepAt, SaysSince, Silent;
    forall q | q in done ensures Accounted(next, q) {
      AccountedStep(c, next, p, q);
    }
    forall q: Path | q !in done + {p} ensures Untried(next, q) {
      UntriedStep(c, next, p, q);
    }
    forall q: Path | q != p && !rules.valid(q) ensures Silent(next, q) {
      SilentStep(c, next, p, q);
    }
  }

  /** A digest has been taken of a document that has not been loaded. */
  lemma DigestedStep(past: seq<Files>, history: seq<Files>, rules: Rules, since: int, c: Collection,
                     p: Path, digest: Digest)
    requires past <= history && 0 <= since < |history| && Collected(past, rules, since, c, {})
    requires digest == Unread || digest == DigestIn(rules, history[|history| - 1], p)
    ensures Collected(history, rules, since, c.(manifest := c.manifest[p := digest]), {})
  {
    var next := c.(manifest := c.manifest[p := digest]);
    assert Untried(c, p);
    assert Says(history[|history| - 1], rules, next, p) by {
      forall i | 0 <= i < |next.diagnostics| && next.diagnostics[i].path == p
        ensures Justified(history[|history| - 1], rules, next.diagnostics[i])
      {
        assert Blocking(c.diagnostics[i].code);
      }
    }
    assert SaysSince(history, rules, since, next, p);
    SeenStep(past, history, rules, since, c, next, p);
    hide Seen;
    forall q: Path ensures Untried(next, q) && (rules.valid(q) || Silent(next, q)) {
      assert Untried(c, q) && (rules.valid(q) || Silent(c, q));
    }
  }

  /** A blocking diagnostic needs no evidence. */
  lemma BlockingStep(history: seq<Files>, rules: Rules, since: int, c: Collection, done: set<Path>, d: Diagnostic)
    requires Collected(history, rules, since, c, done) && Blocking(d.code)
    ensures Collected(history, rules, since, Noting(c, d), done)
    ensures StepAt(c, Noting(c, d), d.path) && !NoneBlocking(Noting(c, d).diagnostics)
  {
    var next := Noting(c, d);
    assert next.diagnostics[|c.diagnostics|] == d;
    if !c.changed {
      forall p: Path ensures SaysSince(history, rules, since, next, p) {
        assert SaysSince(history, rules, since, c, p);
        var t :| since <= t < |history| && Says(history[t], rules, c, p);
        assert Says(history[t], rules, next, p);
      }
    }
    hide Seen, SaysSince, Says;
    forall p | p in done ensures Accounted(next, p) {
      AccountedStep(c, next, d.path, p);
    }
    forall p: Path | p !in done || !rules.valid(p) ensures Untried(next, p) && (rules.valid(p) || Silent(next, p)) {
      assert Untried(c, p);
    }
  }

  function Noting(c: Collection, d: Diagnostic): Collection {
    c.(diagnostics := c.diagnostics + [d])
  }

  // ---- one document ----

  /** `manifest.setdefault`, and whether the content is not what was digested before. */
  function Compared(c: Collection, p: Path, digest: Digest): Collection {
    if p in c.manifest then c.(changed := c.changed || c.manifest[p] != digest)
       else c.(manifest := c.manifest[p := digest])
  }

  /** What becomes of a decoded document. */
  function Filed(c: Collection, p: Path, decoded: Decoded): Collection {
    match decoded
    case Document(v) => c.(values := c.values[p := v])
    case FieldLab(ambiguous) =>
      var noted := Noting(c, Diagnostic(FieldLabExcluded, p));
      if p.kind == Evaluations && ambiguous then Noting(noted, Diagnostic(ExpectedUserDocumentExcluded, p)) else noted
    case NewerVersion =>
           Noting(c, Diagnostic(if p.kind == Evaluations then IncompatibleVersion else CorruptDocument, p))
    case Corrupt => Noting(c, Diagnostic(CorruptDocument, p))
  }

  /** A document that was read. */
  function Loaded(rules: Rules, c: Collection, p: Path, document: string, digest: Digest): Collection {
    if |document| > MAX_DOCUMENT_BYTES then Noting(Compared(c, p, digest), Diagnostic(DocumentTooLarge, p))
    else Filed(Compared(c, p, digest), p, rules.decode(p, document))
  }

  lemma NotingStep(c: Collection, d: Diagnostic)
    ensures StepAt(c, Noting(c, d), d.path)
    ensures Explains(d, d.path) ==> Accounted(Noting(c, d), d.path)
  {
    assert Noting(c, d).diagnostics[|c.diagnostics|] == d;
  }

  lemma ComparedStep(c: Collection, p: Path, digest: Digest)
    ensures StepAt(c, Compared(c, p, digest), p) && (Untried(c, p) ==> Untried(Compared(c, p, digest), p))
  {
  }

  lemma StepTwice(c: Collection, between: Collection, next: Collection, p: Path)
    requires StepAt(c, between, p) && StepAt(between, next, p)
    ensures StepAt(c, next, p)
  {
  }

  lemma FiledStep(c: Collection, p: Path, decoded: Decoded)
    requires p !in c.values
    ensures StepAt(c, Filed(c, p, decoded), p) && Accounted(Filed(c, p, decoded), p)
  {
    match decoded
    case Document(v) =>
    case FieldLab(ambiguous) =>
      var d := Diagnostic(FieldLabExcluded, p);
      NotingStep(c, d);
      NotingStep(Noting(c, d), Diagnostic(ExpectedUserDocumentExcluded, p));
      if p.kind == Evaluations && ambiguous {
        hide StepAt, Noting;
        StepTwice(c, Noting(c, d), Filed(c, p, decoded), p);
      }
    case NewerVersion =>
           NotingStep(c, Diagnostic(if p.kind == Evaluations then IncompatibleVersion else CorruptDocument, p));
    case Corrupt => NotingStep(c, Diagnostic(CorruptDocument, p));
  }

  lemma LoadedStep(rules: Rules, c: Collection, p: Path, document: string, digest: Digest)
    requires Untried(c, p)
    ensures var next := Loaded(rules, c, p, document, digest);
            StepAt(c, next, p) && Accounted(next, p)
  {
    var compared, next := Compared(c, p, digest), Loaded(rules, c, p, document, digest);
    ComparedStep(c, p, digest);
    NotingStep(compared, Diagnostic(DocumentTooLarge, p));
    FiledStep(compared, p, rules.decode(p, document));
    hide StepAt, Accounted, Compared, Noting, Filed;
    StepTwice(c, compared, next, p);
  }

  lemma LoadedSays(files: Files, rules: Rules, c: Collection, p: Path)
    requires Untried(c, p) && p in files
    ensures var next := Loaded(rules, c, p, files[p].document, DigestIn(rules, files, p));
            next.changed || Says(files, rules, next, p)
  {
    var next := Loaded(rules, c, p, files[p].document, DigestIn(rules, files, p));
    LoadedExcuses(files, rules, c, p, DigestIn(rules, files, p));
    hide Untried, Justified;
  }

  lemma NotingExcuses(files: Files, rules: Rules, c: Collection, d: Diagnostic)
    requires Excused(files, rules, c, d.path) && Justified(files, rules, d)
    ensures Excused(files, rules, Noting(c, d), d.path)
  {
  }

  lemma LoadedExcuses(files: Files, rules: Rules, c: Collection, p: Path, digest: Digest)
    requires Untried(c, p) && p in files
    ensures Excused(files, rules, Loaded(rules, c, p, files[p].document, digest), p)
  {
    var compared := Compared(c, p, digest);
    assert Excused(files, rules, compared, p);
    hide Excused, Noting;
    if |files[p].document| > MAX_DOCUMENT_BYTES {
      NotingExcuses(files, rules, compared, Diagnostic(DocumentTooLarge, p));
    } else {
      match rules.decode(p, files[p].document)
      case Document(v) =>
        SameExcuses(files, rules, compared, compared.(values := compared.values[p := v]), p);
      case FieldLab(ambiguous) =>
        NotingExcuses(files, rules, compared, Diagnostic(FieldLabExcluded, p));
        NotingExcuses(files, rules, Noting(compared, Diagnostic(FieldLabExcluded, p)),
                      Diagnostic(ExpectedUserDocumentExcluded, p));
      case NewerVersion =>
        NotingExcuses(files, rules, compared,
                      Diagnostic(if p.kind == Evaluations then IncompatibleVersion else CorruptDocument, p));
      case Corrupt =>
        NotingExcuses(files, rules, compared, Diagnostic(CorruptDocument, p));
    }
  }

  lemma SameExcuses(files: Files, rules: Rules, c: Collection, next: Collection, p: Path)
    requires Excused(files, rules, c, p) && next.diagnostics == c.diagnostics
    ensures Excused(files, rules, next, p)
  {
  }

  /** The documents of one kind that the collected evaluations refer to. */
  function JoinsOf(values: map<Path, Value>, kind: Kind): set<Path> {
    set p, j | p in values && p.kind == Evaluations && j in Joins(values[p]) && j.kind == kind :: j
  }

  /** A referenced document is collected, or a blocking diagnostic stands. */
  ghost predicate Resolved(c: Collection, names: set<Path>) {
    NoneBlocking(c.diagnostics) ==> names <= c.values.Keys
  }

  lemma ResolvedLater(before: Collection, after: Collection, names: set<Path>)
    requires Resolved(before, names) && before.diagnostics <= after.diagnostics
             && before.values.Keys <= after.values.Keys
    ensures Resolved(after, names)
  {
    if NoneBlocking(after.diagnostics) {
      forall i | 0 <= i < |before.diagnostics| ensures !Blocking(before.diagnostics[i].code) {
        assert before.diagnostics[i] == after.diagnostics[i];
      }
    }
  }

  /** Diagnostics were added and only values of these documents were set. */
  ghost predicate OnlyTouched(before: Collection, after: Collection, names: set<Path>) {
    && before.diagnostics <= after.diagnostics && before.values.Keys <= after.values.Keys
    && forall q :: q in after.values && q !in names ==> q in before.values && after.values[q] == before.values[q]
  }

  lemma JoinStep(c: Collection, before: Collection, after: Collection, names: set<Path>, done: set<Path>, p: Path)
    requires OnlyTouched(c, before, names) && Resolved(before, done) && StepAt(before, after, p) && Resolved(after, {p})
             && p in names
    ensures OnlyTouched(c, after, names) && Resolved(after, done + {p})
  {
    ResolvedLater(before, after, done);
  }

  /** Without a join of that kind among the loaded documents, the evaluations and their joins stay as they were. */
  lemma SameJoins(before: map<Path, Value>, after: map<Path, Value>, names: set<Path>, kind: Kind)
    requires before.Keys <= after.Keys && forall p :: p in names ==> p.kind != Evaluations
    requires forall q :: q in after && q !in names ==> q in before && after[q] == before[q]
    ensures JoinsOf(after, kind) == JoinsOf(before, kind)
  {
  }

  lemma AllJoined(c: Collection)
    requires forall kind: Kind :: kind != Evaluations ==> Resolved(c, JoinsOf(c.values, kind))
    ensures Joined(c.values, c.diagnostics)
  {
    if NoneBlocking(c.diagnostics) {
      forall p, j | p in c.values && p.kind == Evaluations && j in Joins(c.values[p]) ensures j in c.values {
        assert j.kind != Evaluations;
        assert Resolved(c, JoinsOf(c.values, j.kind));
        assert j in JoinsOf(c.values, j.kind);
      }
    }
  }

  lemma NothingCollected(history: seq<Files>, rules: Rules, since: int, c: Collection)
    requires 0 <= since < |history| && c == Collection(map[], map[], [], false)
    ensures Collected(history, rules, since, c, {})
  {
    forall p: Path ensures SaysSince(history, rules, since, c, p) {
      assert Says(history[since], rules, c, p);
    }
  }

  /** What a finished collection has seen and tried. */
  ghost predicate Gathered(history: seq<Files>, rules: Rules, since: int, c: Collection, names: set<Path>) {
    && Seen(history, rules, since, c) && (forall p: Path :: !rules.valid(p) ==> Silent(c, p))
    && (forall p :: p in names ==> Accounted(c, p)) && Joined(c.values, c.diagnostics)
  }

  /** What is returned: only a stable read is complete, and only without a blocking diagnostic. */
  function Concluded(found: Collection, stable: bool): (s: Snapshot)
    ensures s.stable == stable && (s.complete <==> stable && NoneBlocking(s.found.diagnostics))
            && (stable ==> s.found == found)
  {
    if stable then Snapshot(found, NoneBlocking(found.diagnostics), true)
    else Snapshot(Noting(found, Diagnostic(DatasetChanged, Path(Evaluations, ""))), false, false)
  }

  class OutcomeHistoryReader {
    const directory: Directory
    const rules: Rules

    constructor (directory: Directory, rules: Rules)
      ensures this.directory == directory && this.rules == rules
    {
      this.directory, this.rules := directory, rules;
    }

    /** `_digest`. */
    method DigestOf(p: Path) returns (d: Digest)
      requires directory.Valid()
      modifies directory
      ensures directory.Valid() && directory.history != [] && old(directory.history) <= directory.history
      ensures d == Unread || d == DigestIn(rules, directory.Now(), p)
    {
      directory.Recorded();
      if !rules.valid(p) {
        return InvalidIdentity;
      }
      var reading := directory.Read(p);
      directory.Recorded();
      d := match reading
        case Content(document, signature) => if |document| > MAX_DOCUMENT_BYTES then TooLarge(signature)
             else Sha(rules.sha(document))
        case Missing => Absent
        case Unreadable => Unread;
    }

    /** `load`: one document, its digest and its decoding. */
    method Load(c: Collection, p: Path, ghost since: int, ghost done: set<Path>) returns (next: Collection)
      requires directory.Valid() && 0 <= since < |directory.history| && p !in done
      requires Collected(directory.history, rules, since, c, done)
      modifies directory
      ensures directory.Valid() && old(directory.history) <= directory.history
      ensures Collected(directory.history, rules, since, next, done + {p}) && StepAt(c, next, p)
    {
      ghost var past := directory.history;
      assert Untried(c, p);
      if !rules.valid(p) {
        next := Noting(c, Diagnostic(InvalidDocumentIdentity, p));
        NotedStep(past, since, c, next, done, Diagnostic(InvalidDocumentIdentity, p));
        return;
      }
      var reading := directory.Read(p);
      directory.Recorded();
      ghost var history := directory.history;
      match reading
      case Missing =>
        next := Noting(c.(manifest := c.manifest[p := Absent]), Diagnostic(MissingJoin, p));
        SkippedStep(past, history, since, c, done, p, Absent, MissingJoin);
      case Unreadable =>
        next := Noting(c.(manifest := c.manifest[p := Unread]), Diagnostic(UnreadableDocument, p));
        SkippedStep(past, history, since, c, done, p, Unread, UnreadableDocument);
      case Content(document, signature) =>
        LoadedStep(rules, c, p, document, DigestIn(rules, directory.Now(), p));
        LoadedSays(directory.Now(), rules, c, p);
        next := Loaded(rules, c, p, document, if |document| > MAX_DOCUMENT_BYTES then TooLarge(signature)
                       else Sha(rules.sha(document)));
        assert next.changed || SaysSince(history, rules, since, next, p) by {
          assert history[|history| - 1] == directory.Now();
        }
        TriedStep(past, history, rules, since, c, next, done, p);
    }

    /** A document that is left out with a blocking diagnostic. */
    lemma NotedStep(history: seq<Files>, since: int, c: Collection, next: Collection, done: set<Path>, d: Diagnostic)
      requires Collected(history, rules, since, c, done) && next == Noting(c, d) && Blocking(d.code)
      ensures Collected(history, rules, since, next, done + {d.path}) && StepAt(c, next, d.path)
    {
      BlockingStep(history, rules, since, c, done, d);
      assert Explains(next.diagnostics[|c.diagnostics|], d.path);
      assert next.changed || SaysSince(history, rules, since, next, d.path);
      TriedStep(history, history, rules, since, c, next, done, d.path);
    }

    /** A document that is not there or cannot be read. */
    lemma SkippedStep(past: seq<Files>, history: seq<Files>, since: int, c: Collection, done: set<Path>, p: Path,
                      digest: Digest, code: Code)
      requires past <= history && 0 <= since < |history| && Collected(past, rules, since, c, done) && Untried(c, p)
      requires Blocking(code) && (digest == Unread || digest == DigestIn(rules, history[|history| - 1], p))
      ensures var next := Noting(c.(manifest := c.manifest[p := digest]), Diagnostic(code, p));
              Collected(history, rules, since, next, done + {p}) && StepAt(c, next, p)
    {
      var next := Noting(c.(manifest := c.manifest[p := digest]), Diagnostic(code, p));
      assert Explains(next.diagnostics[|c.diagnostics|], p);
      assert Says(history[|history| - 1], rules, next, p);
      assert SaysSince(history, rules, since, next, p);
      TriedStep(past, history, rules, since, c, next, done, p);
    }

    /** Load every document of a list of names. */
    method LoadNames(c: Collection, names: set<Path>, ghost since: int, ghost done: set<Path>)
      returns (next: Collection)
      requires directory.Valid() && 0 <= since < |directory.history| && names !! done
      requires Collected(directory.history, rules, since, c, done)
      modifies directory
      ensures directory.Valid() && old(directory.history) <= directory.history
      ensures Collected(directory.history, rules, since, next, done + names)
    {
      next := c;
      var rest := names;
      assert done + (names - rest) == done;
      hide *;
      while rest != {}
        invariant directory.Valid() && old(directory.history) <= directory.history && rest <= names
        invariant Collected(directory.history, rules, since, next, done + (names - rest))
        decreases |rest|
      {
        var p :| p in rest;
        next := Load(next, p, since, done + (names - rest));
        assert done + (names - (rest - {p})) == done + (names - rest) + {p};
        rest := rest - {p};
      }
      assert names - {} == names;
    }

    /** `_inventory`. */
    method Inventory(kind: Kind) returns (r: Result<set<Path>>)
      requires directory.Valid()
      modifies directory
      ensures directory.Valid() && old(directory.history) <= directory.history
      ensures r.Success? ==> directory.history != [] && r.value == Names(directory.Now(), kind)
    {
      var names := directory.List(kind);
      var usable: bool := *;
      r := if usable then Success(names) else Failure("outcome_history_unavailable");
    }

    /** One inventory after the other, for every kind. */
    method Inventories() returns (r: Result<map<Kind, set<Path>>>)
      requires directory.Valid()
      modifies directory
      ensures directory.Valid() && old(directory.history) <= directory.history
      ensures r.Success? ==> forall kind: Kind :: kind in r.value
      ensures r.Success? ==> forall kind :: kind in r.value ==>
                ListedWithin(directory.history, |old(directory.history)| - 1, |directory.history| - 1, kind,
                             r.value[kind])
    {
      hide Evolves, Names;
      ghost var low := |directory.history| - 1;
      var result: map<Kind, set<Path>> := map[];
      var rest := KINDS;
      while rest != {}
        invariant directory.Valid() && old(directory.history) <= directory.history
        invariant rest <= KINDS && result.Keys == KINDS - rest
        invariant forall kind :: kind in result ==>
                    ListedWithin(directory.history, low, |directory.history| - 1, kind, result[kind])
        decreases |rest|
      {
        hide ListedWithin;
        var kind :| kind in rest;
        ghost var past := directory.history;
        var names := Inventory(kind);
        forall k | k in result ensures ListedWithin(directory.history, low, |directory.history| - 1, k, result[k]) {
          ListedLater(past, directory.history, low, k, result[k]);
        }
        if names.Failure? {
          return Failure(names.error);
        }
        assert ListedWithin(directory.history, low, |directory.history| - 1, kind, names.value) by {
          assert Names(directory.history[|directory.history| - 1], kind) == names.value;
        }
        result := result[kind := names.value];
        rest := rest - {kind};
      }
      AllKinds();
      r := Success(result);
    }

    lemma ListedLater(past: seq<Files>, history: seq<Files>, low: int, kind: Kind, names: set<Path>)
      requires past <= history && ListedWithin(past, low, |past| - 1, kind, names)
      ensures ListedWithin(history, low, |history| - 1, kind, names)
              && ListedWithin(history, low, |past| - 1, kind, names)
    {
      var t :| 0 <= t < |past| && low <= t <= |past| - 1 && Names(past[t], kind) == names;
      assert history[t] == past[t];
    }

    /** `_metadata`: the signature of every listed file, None where it could not be taken. */
    method Metadata(inventories: map<Kind, set<Path>>) returns (metadata: map<Path, Option<Signature>>)
      requires directory.Valid() && forall kind, p :: kind in inventories && p in inventories[kind] ==> p.kind == kind
      modifies directory
      ensures directory.Valid() && old(directory.history) <= directory.history
      ensures AllSigned(directory.history, |old(directory.history)| - 1, metadata)
      ensures forall kind :: kind in inventories ==>
                Looked(directory.history, |old(directory.history)| - 1, inventories[kind], metadata, directory.blind)
    {
      ghost var low := |directory.history| - 1;
      ghost var seen: set<Path> := {};
      metadata := map[];
      assert Looked(directory.history, low, seen, metadata, directory.blind)
             && AllSigned(directory.history, low, metadata);
      hide *;
      var kinds := inventories.Keys;
      while kinds != {}
        invariant directory.Valid() && old(directory.history) <= directory.history && kinds <= inventories.Keys
        invariant AllSigned(directory.history, low, metadata)
        invariant Looked(directory.history, low, seen, metadata, directory.blind) && forall p :: p in seen ==>
                    p.kind !in kinds
        invariant forall kind :: kind in inventories && kind !in kinds ==> inventories[kind] <= seen + directory.blind
        decreases |kinds|
      {
        var kind :| kind in kinds;
        kinds := kinds - {kind};
        var usable: bool := *;
        if inventories[kind] != {} {
          if usable || !(inventories[kind] <= directory.blind) {
            metadata := MetadataOf(inventories[kind], metadata, low, seen);
            seen := seen + inventories[kind];
          } else {
            UnopenedKind(directory.history, low, seen, metadata, kind, directory.blind);
            metadata := metadata[Path(kind, "/") := None];
          }
        }
      }
      LookedAmong(directory.history, low, seen, metadata, directory.blind);
    }

    /** A sub-directory that could not be opened is noted under its own name, which is no file's. */
    lemma UnopenedKind(history: seq<Files>, since: int, seen: set<Path>, metadata: map<Path, Option<Signature>>,
                       kind: Kind, blind: set<Path>)
      requires Looked(history, since, seen, metadata, blind) && AllSigned(history, since, metadata)
      requires forall p :: p in seen ==> p.kind != kind
      ensures Looked(history, since, seen, metadata[Path(kind, "/") := None], blind)
      ensures AllSigned(history, since, metadata[Path(kind, "/") := None])
    {
    }

    lemma LookedAmong(history: seq<Files>, since: int, seen: set<Path>, metadata: map<Path, Option<Signature>>,
                      blind: set<Path>)
      ensures forall names: set<Path> :: names <= seen + blind && Looked(history, since, seen, metadata, blind) ==>
                Looked(history, since, names, metadata, blind)
    {
    }

    method MetadataOf(names: set<Path>, known: map<Path, Option<Signature>>, ghost low: int, ghost seen: set<Path>)
      returns (metadata: map<Path, Option<Signature>>)
      requires directory.Valid() && low < |directory.history| && AllSigned(directory.history, low, known)
      requires Looked(directory.history, low, seen, known, directory.blind)
      modifies directory
      ensures directory.Valid() && old(directory.history) <= directory.history
              && AllSigned(directory.history, low, metadata)
      ensures Looked(directory.history, low, seen + names, metadata, directory.blind)
    {
      hide *;
      metadata := known;
      var rest := names;
      assert seen + (names - rest) == seen;
      while rest != {}
        invariant directory.Valid() && old(directory.history) <= directory.history && rest <= names
        invariant AllSigned(directory.history, low, metadata)
        invariant Looked(directory.history, low, seen + (names - rest), metadata, directory.blind)
        decreases |rest|
      {
        var p :| p in rest;
        ghost var past := directory.history;
        assert seen + (names - (rest - {p})) == seen + (names - rest) + {p};
        var signature := Examine(p);
        SignedMore(past, directory.history, low, metadata, p, signature);
        LookedLater(past, directory.history, low, seen + (names - rest), metadata, directory.blind, p, signature);
        rest := rest - {p};
        metadata := metadata[p := signature];
      }
      assert seen + (names - {}) == seen + names;
    }

    method Examine(p: Path) returns (signature: Option<Signature>)
      requires directory.Valid()
      modifies directory
      ensures directory.Valid() && directory.history != [] && old(directory.history) <= directory.history
      ensures signature.Some? ==> SignedAt(directory.history, |directory.history| - 1, p, signature.value)
      ensures signature.None? ==> p in directory.blind || p !in directory.history[|directory.history| - 1]
    {
      signature := directory.Stat(p);
    }

    /** The digests of the first pass. */
    method DigestNames(c: Collection, names: set<Path>, ghost since: int) returns (next: Collection)
      requires directory.Valid() && 0 <= since < |directory.history|
      requires Collected(directory.history, rules, since, c, {})
      modifies directory
      ensures directory.Valid() && old(directory.history) <= directory.history
      ensures Collected(directory.history, rules, since, next, {})
    {
      next := c;
      var rest := names;
      hide *;
      while rest != {}
        invariant directory.Valid() && old(directory.history) <= directory.history && rest <= names
        invariant Collected(directory.history, rules, since, next, {})
        decreases |rest|
      {
        var p :| p in rest;
        rest := rest - {p};
        next := DigestOne(next, p, since);
      }
    }

    method DigestOne(c: Collection, p: Path, ghost since: int) returns (next: Collection)
      requires directory.Valid() && 0 <= since < |directory.history|
      requires Collected(directory.history, rules, since, c, {})
      modifies directory
      ensures directory.Valid() && old(directory.history) <= directory.history
      ensures Collected(directory.history, rules, since, next, {})
    {
      hide Collected, DigestIn;
      ghost var past := directory.history;
      var digest := DigestOf(p);
      assert directory.Now() == directory.history[|directory.history| - 1];
      DigestedStep(past, directory.history, rules, since, c, p, digest);
      next := c.(manifest := c.manifest[p := digest]);
    }

    /** The second pass over the digests. */
    method SameDigests(manifest: map<Path, Digest>) returns (same: bool)
      requires directory.Valid()
      modifies directory
      ensures directory.Valid() && old(directory.history) <= directory.history
    {
      hide *;
      same := true;
      var rest := manifest.Keys;
      while rest != {}
        invariant directory.Valid() && old(directory.history) <= directory.history && rest <= manifest.Keys
        decreases |rest|
      {
        var p :| p in rest;
        rest := rest - {p};
        var digest := DigestOf(p);
        same := digest == manifest[p] && same;
      }
    }

    /** A diagnostic for every evaluated observation that was not collected. */
    method CheckObservations(c: Collection, names: set<Path>, ghost since: int, ghost done: set<Path>)
      returns (next: Collection)
      requires Collected(directory.history, rules, since, c, done)
      ensures Collected(directory.history, rules, since, next, done)
      ensures next.values == c.values && c.diagnostics <= next.diagnostics && Resolved(next, names)
    {
      next := c;
      var rest := names;
      assert Resolved(next, names - rest);
      hide Collected;
      while rest != {}
        invariant rest <= names && Collected(directory.history, rules, since, next, done)
        invariant next.values == c.values && c.diagnostics <= next.diagnostics
        invariant Resolved(next, names - rest)
        decreases |rest|
      {
        var p :| p in rest;
        ghost var before := next;
        ghost var checked := names - rest;
        rest := rest - {p};
        if p !in next.values {
          BlockingStep(directory.history, rules, since, next, done, Diagnostic(MissingUserObservation, p));
          next := Noting(next, Diagnostic(MissingUserObservation, p));
        }
        assert Resolved(next, names - rest) by {
          ResolvedLater(before, next, checked);
          assert names - rest == checked + {p};
        }
      }
      assert names - rest == names;
    }

    /** One join: a field-lab document where a user document is expected is reported as such. */
    method LoadJoin(c: Collection, p: Path, ghost since: int, ghost done: set<Path>) returns (next: Collection)
      requires directory.Valid() && 0 <= since < |directory.history| && p.kind != Evaluations && p !in done
      requires Collected(directory.history, rules, since, c, done)
      modifies directory
      ensures directory.Valid() && old(directory.history) <= directory.history
      ensures Collected(directory.history, rules, since, next, done + {p}) && StepAt(c, next, p) && Resolved(next, {p})
    {
      next := Load(c, p, since, done);
      if p !in next.values {
        var excluded := exists i | 0 <= i < |next.diagnostics| ::
              next.diagnostics[i] == Diagnostic(FieldLabExcluded, p);
        if excluded {
          ghost var loaded := next;
          BlockingStep(directory.history, rules, since, next, done + {p}, Diagnostic(ExpectedUserDocumentExcluded, p));
          next := Noting(next, Diagnostic(ExpectedUserDocumentExcluded, p));
          StepTwice(c, loaded, next, p);
        } else {
          ExplainedBlocks(directory.history, since, next, done + {p}, p);
        }
      }
    }

    lemma ExplainedBlocks(history: seq<Files>, since: int, c: Collection, done: set<Path>, p: Path)
      requires Collected(history, rules, since, c, done) && p in done && p !in c.values && p.kind != Evaluations
      requires forall i :: 0 <= i < |c.diagnostics| ==> c.diagnostics[i] != Diagnostic(FieldLabExcluded, p)
      ensures !NoneBlocking(c.diagnostics)
    {
      assert Accounted(c, p);
      var i :| 0 <= i < |c.diagnostics| && Explains(c.diagnostics[i], p);
      assert c.diagnostics[i].path == p;
      assert Blocking(c.diagnostics[i].code);
    }

    /** Load a set of joins. */
    method LoadJoinNames(c: Collection, names: set<Path>, ghost since: int, ghost done: set<Path>)
      returns (next: Collection)
      requires directory.Valid() && 0 <= since < |directory.history| && names !! done
      requires forall p :: p in names ==> p.kind != Evaluations
      requires Collected(directory.history, rules, since, c, done)
      modifies directory
      ensures directory.Valid() && old(directory.history) <= directory.history
      ensures Collected(directory.history, rules, since, next, done + names)
      ensures Resolved(next, names) && OnlyTouched(c, next, names)
    {
      next := c;
      var rest := names;
      assert done + (names - rest) == done;
      assert Resolved(next, names - rest) && OnlyTouched(c, next, names);
      hide *;
      while rest != {}
        invariant directory.Valid() && old(directory.history) <= directory.history && rest <= names
        invariant Collected(directory.history, rules, since, next, done + (names - rest))
        invariant Resolved(next, names - rest) && OnlyTouched(c, next, names)
        decreases |rest|
      {
        var p :| p in rest;
        ghost var before, tried := next, names - rest;
        next := LoadJoin(next, p, since, done + tried);
        JoinStep(c, before, next, names, tried, p);
        rest := rest - {p};
        assert names - rest == tried + {p} && done + (tried + {p}) == done + tried + {p};
      }
      assert names - rest == names;
    }

    /** The joins of one kind. */
    method LoadJoins(c: Collection, kind: Kind, ghost since: int, ghost done: set<Path>) returns (r: Result<Collection>)
      requires directory.Valid() && 0 <= since < |directory.history| && kind != Evaluations && forall p :: p in done ==>
                 p.kind != kind
      requires Collected(directory.history, rules, since, c, done)
      modifies directory
      ensures directory.Valid() && old(directory.history) <= directory.history
      ensures r.Success? ==> JoinsLoaded(directory.history, since, c, r.value, kind, done)
    {
      ghost var past := directory.history;
      var listed := Inventory(kind);
      CollectedLater(past, directory.history, rules, since, c, done);
      if listed.Failure? {
        return Failure(listed.error);
      }
      hide Collected;
      var names := JoinsOf(c.values, kind);
      assert forall p :: p in names ==> p.kind == kind;
      var next := LoadJoinNames(c, names, since, done);
      r := Success(next);
      forall k ensures JoinsOf(next.values, k) == JoinsOf(c.values, k) {
        SameJoins(c.values, next.values, names, k);
      }
    }

    ghost predicate JoinsLoaded(history: seq<Files>, since: int, c: Collection, next: Collection, kind: Kind,
                                done: set<Path>) {
      && Collected(history, rules, since, next, done + JoinsOf(c.values, kind))
         && Resolved(next, JoinsOf(c.values, kind))
      && c.diagnostics <= next.diagnostics && c.values.Keys <= next.values.Keys
      && forall k :: JoinsOf(next.values, k) == JoinsOf(c.values, k)
    }

    /** The three kinds of joins after the evaluations and observations. */
    method GatherJoins(c: Collection, ghost since: int, ghost done: set<Path>) returns (r: Result<Collection>)
      requires directory.Valid() && 0 <= since < |directory.history|
      requires Collected(directory.history, rules, since, c, done) && forall p :: p in done ==>
                 p.kind in {Evaluations, Observations}
      requires Resolved(c, JoinsOf(c.values, Observations))
      modifies directory
      ensures directory.Valid() && old(directory.history) <= directory.history
      ensures r.Success? ==> Gathered(directory.history, rules, since, r.value, done)
    {
      ghost var done1 := done + JoinsOf(c.values, Evidence);
      assert forall p :: p in done1 ==> p.kind !in {Executions, Decisions};
      hide Collected, Resolved, JoinsLoaded, Gathered;
      var evidence := LoadJoins(c, Evidence, since, done);
      if evidence.Failure? {
        return evidence;
      }
      ghost var first := directory.history;
      LoadedIsCollected(first, since, c, evidence.value, Evidence, done);
      ghost var done2 := done1 + JoinsOf(evidence.value.values, Executions);
      assert forall p :: p in done2 ==> p.kind != Decisions;
      var executions := LoadJoins(evidence.value, Executions, since, done1);
      if executions.Failure? {
        return executions;
      }
      ghost var second := directory.history;
      LoadedIsCollected(second, since, evidence.value, executions.value, Executions, done1);
      var decisions := LoadJoins(executions.value, Decisions, since, done2);
      if decisions.Failure? {
        return decisions;
      }
      ThreeJoins(first, second, directory.history, since, c, evidence.value, executions.value, decisions.value, done);
      r := decisions;
    }

    lemma LoadedIsCollected(history: seq<Files>, since: int, c: Collection, next: Collection, kind: Kind,
                            done: set<Path>)
      requires JoinsLoaded(history, since, c, next, kind, done)
      ensures Collected(history, rules, since, next, done + JoinsOf(c.values, kind))
    {
    }

    /** The three kinds of joins one after the other resolve all joins of the evaluations. */
    lemma ThreeJoins(h1: seq<Files>, h2: seq<Files>, h3: seq<Files>, since: int, c: Collection, c1: Collection,
                     c2: Collection, c3: Collection, done: set<Path>)
      requires Resolved(c, JoinsOf(c.values, Observations))
      requires JoinsLoaded(h1, since, c, c1, Evidence, done)
      requires JoinsLoaded(h2, since, c1, c2, Executions, done + JoinsOf(c.values, Evidence))
      requires JoinsLoaded(h3, since, c2, c3, Decisions,
                           done + JoinsOf(c.values, Evidence) + JoinsOf(c1.values, Executions))
      ensures Gathered(h3, rules, since, c3, done)
    {
      hide Collected, Resolved, JoinsOf, Joined, NoneBlocking, Seen, Accounted, Silent;
      ResolvedLater(c, c1, JoinsOf(c.values, Observations));
      ResolvedLater(c1, c2, JoinsOf(c.values, Observations));
      ResolvedLater(c2, c3, JoinsOf(c.values, Observations));
      ResolvedLater(c1, c2, JoinsOf(c.values, Evidence));
      ResolvedLater(c2, c3, JoinsOf(c.values, Evidence));
      ResolvedLater(c2, c3, JoinsOf(c.values, Executions));
      forall kind: Kind | kind != Evaluations ensures Resolved(c3, JoinsOf(c3.values, kind)) {
        assert JoinsOf(c3.values, kind) == JoinsOf(c2.values, kind) == JoinsOf(c1.values, kind)
               == JoinsOf(c.values, kind);
      }
      AllJoined(c3);
      Fewer(h3, since, c3, done, done + JoinsOf(c.values, Evidence) + JoinsOf(c1.values, Executions)
            + JoinsOf(c2.values, Decisions));
    }

    lemma Fewer(history: seq<Files>, since: int, c: Collection, some: set<Path>, done: set<Path>)
      requires some <= done && Collected(history, rules, since, c, done)
      ensures Seen(history, rules, since, c) && (forall p: Path :: !rules.valid(p) ==> Silent(c, p))
      ensures forall p :: p in some ==> Accounted(c, p)
    {
    }

    /** Everything between the two passes. */
    method Gather(inventories: map<Kind, set<Path>>) returns (r: Result<Collection>)
      requires directory.Valid() && (forall kind: Kind :: kind in inventories)
      requires forall kind, p :: kind in inventories && p in inventories[kind] ==> p.kind == kind
      modifies directory
      ensures directory.Valid() && old(directory.history) <= directory.history
      ensures r.Success? ==>
                Gathered(directory.history, rules, |old(directory.history)| - 1, r.value,
                         inventories[Evaluations] + inventories[Observations])
    {
      ghost var since := |directory.history| - 1;
      directory.Recorded();
      var c := Collection(map[], map[], [], false);
      NothingCollected(directory.history, rules, since, c);
      hide Collected, Gathered, Resolved;
      c := DigestNames(c, inventories[Evaluations], since);
      c := DigestNames(c, inventories[Observations], since);
      c := DigestNames(c, inventories[Evidence], since);
      c := DigestNames(c, inventories[Executions], since);
      c := DigestNames(c, inventories[Decisions], since);
      c := LoadNames(c, inventories[Evaluations], since, {});
      assert {} + inventories[Evaluations] == inventories[Evaluations];
      c := LoadNames(c, inventories[Observations], since, inventories[Evaluations]);
      c := CheckObservations(c, JoinsOf(c.values, Observations), since,
                             inventories[Evaluations] + inventories[Observations]);
      r := GatherJoins(c, since, inventories[Evaluations] + inventories[Observations]);
    }

    /** What the first pass has seen by the end of `first`. */
    ghost predicate Passed(listedAt: seq<Files>, first: seq<Files>, inventories: map<Kind, set<Path>>,
                           metadata: map<Path, Option<Signature>>) {
      && first != [] && listedAt <= first && (forall kind: Kind :: kind in inventories)
      && (forall kind: Kind :: ListedWithin(listedAt, 0, |listedAt| - 1, kind, inventories[kind]))
      && (forall p :: p in metadata && metadata[p].Some? ==> SignedWithin(first, 0, |first| - 1, p, metadata[p].value))
    }

    /** What an agreeing second pass that began at the end of `second` has seen. */
    ghost predicate PassedAgain(second: seq<Files>, relistedAt: seq<Files>, history: seq<Files>,
                                inventories: map<Kind, set<Path>>, metadata: map<Path, Option<Signature>>)
      requires forall kind: Kind :: kind in inventories
    {
      && second <= relistedAt <= history
      && (forall kind: Kind :: ListedWithin(relistedAt, |second| - 1, |relistedAt| - 1, kind, inventories[kind]))
      && (forall p :: p in metadata && metadata[p].Some? ==>
            SignedWithin(history, |relistedAt| - 1, |history| - 1, p, metadata[p].value))
    }

    /** The inventories and the metadata, before anything is read. */
    method FirstPass()
      returns (r: Result<(map<Kind, set<Path>>, map<Path, Option<Signature>>)>, ghost listedAt: seq<Files>)
      requires directory.Valid()
      modifies directory
      ensures directory.Valid() && old(directory.history) <= directory.history
      ensures r.Success? ==> directory.history != [] && Passed(listedAt, directory.history, r.value.0, r.value.1)
      ensures r.Success? ==> forall kind, p :: kind in r.value.0 && p in r.value.0[kind] ==> p.kind == kind
      ensures r.Success? ==> forall p: Path ::
                (p in r.value.1 && r.value.1[p].Some?) || p in directory.blind
                    || AbsentSince(directory.history, |old(directory.history)| - 1, p)
      ensures r.Success? && !directory.deletes ==> Missed(r.value.0, r.value.1) <= directory.blind
    {
      directory.Recorded();
      hide Evolves, ListedWithin, SignedWithin;
      var listed := Inventories();
      listedAt := directory.history;
      if listed.Failure? {
        return Failure(listed.error), listedAt;
      }
      FromStart(listedAt, |old(directory.history)| - 1, |listedAt| - 1);
      ListedKinds(listedAt, listed.value);
      var metadata := Metadata(listed.value);
      FromStart(directory.history, |listedAt| - 1, |directory.history| - 1);
      UnsignedIsAbsent(listedAt, directory.history, |old(directory.history)| - 1, listed.value, metadata,
                       directory.blind);
      if !directory.deletes {
        directory.Recorded();
        MissedIsBlind(listedAt, directory.history, listed.value, metadata, directory.blind);
      }
      r := Success((listed.value, metadata));
    }

    /** A file without a signature is a blind one, or was not there at some moment of the pass. */
    lemma UnsignedIsAbsent(listedAt: seq<Files>, history: seq<Files>, since: int, inventories: map<Kind, set<Path>>,
                           metadata: map<Path, Option<Signature>>, blind: set<Path>)
      requires 0 <= since < |listedAt| && listedAt <= history && forall kind: Kind :: kind in inventories
      requires forall kind :: kind in inventories ==>
                 ListedWithin(listedAt, since, |listedAt| - 1, kind, inventories[kind])
      requires forall kind :: kind in inventories ==>
                 Looked(history, |listedAt| - 1, inventories[kind], metadata, blind)
      ensures forall p: Path :: (p in metadata && metadata[p].Some?) || p in blind || AbsentSince(history, since, p)
    {
      forall p: Path | !(p in metadata && metadata[p].Some?) && p !in blind ensures AbsentSince(history, since, p) {
        if p in inventories[p.kind] {
          assert Looked(history, |listedAt| - 1, inventories[p.kind], metadata, blind);
          var t :| 0 <= t < |history| && |listedAt| - 1 <= t && p !in history[t];
        } else {
          var t :| 0 <= t < |listedAt| && since <= t && Names(listedAt[t], p.kind) == inventories[p.kind];
          assert p !in Names(listedAt[t], p.kind) && history[t] == listedAt[t];
        }
      }
    }

    /** The same again after everything has been read: whether both passes agree. */
    method SecondPass(inventories: map<Kind, set<Path>>, metadata: map<Path, Option<Signature>>)
      returns (r: Result<bool>, ghost relistedAt: seq<Files>)
      requires directory.Valid() && forall kind: Kind :: kind in inventories
      modifies directory
      ensures directory.Valid() && old(directory.history) <= directory.history
      ensures r.Success? && r.value ==>
                PassedAgain(old(directory.history), relistedAt, directory.history, inventories, metadata)
    {
      directory.Recorded();
      hide Evolves, ListedWithin, SignedWithin;
      var relisted := Inventories();
      relistedAt := directory.history;
      if relisted.Failure? {
        return Failure(relisted.error), relistedAt;
      }
      FromStart(relistedAt, |old(directory.history)| - 1, |relistedAt| - 1);
      ListedKinds(relistedAt, relisted.value);
      var final := Metadata(relisted.value);
      r := Success(relisted.value == inventories && final == metadata);
    }

    /** Everything after the first pass: the collection, and whether nothing is seen to have changed. */
    method CollectAndRecheck(inventories: map<Kind, set<Path>>, metadata: map<Path, Option<Signature>>)
      returns (r: Result<(Collection, bool)>, ghost filled: seq<Files>, ghost second: seq<Files>,
               ghost relistedAt: seq<Files>)
      requires directory.Valid() && (forall kind: Kind :: kind in inventories)
      requires forall kind, p :: kind in inventories && p in inventories[kind] ==> p.kind == kind
      modifies directory
      ensures directory.Valid() && old(directory.history) <= directory.history
      ensures r.Success? ==>
                && old(directory.history) <= filled <= second <= directory.history
                && Gathered(filled, rules, |old(directory.history)| - 1, r.value.0,
                            inventories[Evaluations] + inventories[Observations])
      ensures r.Success? && r.value.1 ==>
                !r.value.0.changed && PassedAgain(second, relistedAt, directory.history, inventories, metadata)
    {
      hide Gathered, PassedAgain;
      var gathered := Gather(inventories);
      filled, second, relistedAt := directory.history, [], [];
      if gathered.Failure? {
        return Failure(gathered.error), filled, second, relistedAt;
      }
      var same := SameDigests(gathered.value.manifest);
      second := directory.history;
      var agrees;
      agrees, relistedAt := SecondPass(inventories, metadata);
      if agrees.Failure? {
        return Failure(agrees.error), filled, second, relistedAt;
      }
      r := Success((gathered.value, !gathered.value.changed && same && agrees.value));
    }

    /**
      All that is returned is what the store held at one moment, and where nothing is deleted a complete snapshot leaves
      out only what it may.
     */
    ghost predicate Consistent(history: seq<Files>, deletes: bool, since: int, moment: int, s: Snapshot) {
      && since <= moment && HeldAt(history, rules, moment, s.found)
      && (s.complete && !deletes ==> WholeAt(history, rules, moment, s.found))
    }

    /** The read, once its first pass is over. */
    method ReadOn(inventories: map<Kind, set<Path>>, metadata: map<Path, Option<Signature>>, ghost listedAt: seq<Files>)
      returns (r: Result<Snapshot>, ghost moment: int)
      requires directory.Valid() && directory.history != []
               && Passed(listedAt, directory.history, inventories, metadata)
      requires forall kind: Kind :: kind in inventories
      requires forall kind, p :: kind in inventories && p in inventories[kind] ==> p.kind == kind
      modifies directory
      ensures directory.Valid() && old(directory.history) <= directory.history
      ensures r.Success? && r.value.stable
              && |Moving(rules, inventories, metadata, r.value.found, directory.deletes)| <= 1 ==>
                Consistent(directory.history, directory.deletes, |old(directory.history)| - 1, moment, r.value)
      ensures r.Success? ==> (r.value.complete <==> r.value.stable && NoneBlocking(r.value.found.diagnostics))
    {
      hide *;
      moment := 0;
      var collected, filled, second, relistedAt := CollectAndRecheck(inventories, metadata);
      if collected.Failure? {
        return Failure(collected.error), moment;
      }
      var (found, stable) := collected.value;
      var concluded := Concluded(found, stable);
      r := Success(concluded);
      if stable && |Moving(rules, inventories, metadata, concluded.found, directory.deletes)| <= 1 {
        directory.Recorded();
        moment := SnapshotHolds(listedAt, old(directory.history), filled, second, relistedAt, directory.history,
                                inventories, metadata, found, directory.deletes);
      }
    }

    /**
      `read`. The documents that it speaks of but could not examine in its first pass, or where files are deleted did
      not list there, may have moved while it read. When it reports stable and there is at most one of them, then
      everything it returns is what the whole store held at one moment of the call: the end of the first pass, or the
      moment when that one was read. Where nothing is deleted, a complete read then leaves out nothing but excluded and
      newer documents, and resolves every reference. With two moving documents it need not: `TornHistory.TornRead`.
     */
    method Read()
      returns (r: Result<Snapshot>, ghost moment: int, ghost inventories: map<Kind, set<Path>>,
               ghost metadata: map<Path, Option<Signature>>)
      requires directory.Valid()
      modifies directory
      ensures directory.Valid() && old(directory.history) <= directory.history
      ensures r.Success? ==> Noted(directory.history, inventories, metadata)
      ensures r.Success? ==> forall p :: p in Moving(rules, inventories, metadata, r.value.found, directory.deletes) ==>
                p in directory.blind
                || (directory.deletes && AbsentSince(directory.history, |old(directory.history)| - 1, p))
      ensures r.Success? && r.value.stable
              && |Moving(rules, inventories, metadata, r.value.found, directory.deletes)| <= 1 ==>
                Consistent(directory.history, directory.deletes, |old(directory.history)| - 1, moment, r.value)
      ensures r.Success? ==> (r.value.complete <==> r.value.stable && NoneBlocking(r.value.found.diagnostics))
    {
      var initial, listedAt := FirstPass();
      if initial.Failure? {
        return Failure(initial.error), 0, map[], map[];
      }
      inventories, metadata := initial.value.0, initial.value.1;
      ghost var past := directory.history;
      r, moment := ReadOn(initial.value.0, initial.value.1, listedAt);
      AbsentLater(past, directory.history, |old(directory.history)| - 1);
      NotedLater(listedAt, past, directory.history, inventories, metadata);
    }

    /** What the first pass has noted was so: the names at some moment, and every signature. */
    ghost predicate Noted(history: seq<Files>, inventories: map<Kind, set<Path>>,
                          metadata: map<Path, Option<Signature>>) {
      && (forall kind: Kind :: kind in inventories && ListedWithin(history, 0, |history| - 1, kind, inventories[kind]))
      && (forall p :: p in metadata && metadata[p].Some? ==>
            SignedWithin(history, 0, |history| - 1, p, metadata[p].value))
    }

    lemma NotedLater(listedAt: seq<Files>, first: seq<Files>, history: seq<Files>, inventories: map<Kind, set<Path>>,
                     metadata: map<Path, Option<Signature>>)
      requires Passed(listedAt, first, inventories, metadata) && first <= history
      ensures Noted(history, inventories, metadata)
    {
      forall kind: Kind ensures ListedWithin(history, 0, |history| - 1, kind, inventories[kind]) {
        ListedLater(listedAt, history, 0, kind, inventories[kind]);
      }
      forall p | p in metadata && metadata[p].Some?
        ensures SignedWithin(history, 0, |history| - 1, p, metadata[p].value)
      {
        SignedLater(first, history, 0, p, metadata[p].value);
      }
    }

    lemma AbsentLater(past: seq<Files>, history: seq<Files>, since: int)
      requires past <= history
      ensures forall p :: AbsentSince(past, since, p) ==> AbsentSince(history, since, p)
    {
      forall p | AbsentSince(past, since, p) ensures AbsentSince(history, since, p) {
        var t :| 0 <= t < |past| && since <= t && p !in past[t];
        assert history[t] == past[t];
      }
    }

    lemma ListedKinds(history: seq<Files>, inventories: map<Kind, set<Path>>)
      requires forall kind :: kind in inventories ==> ListedWithin(history, 0, |history| - 1, kind, inventories[kind])
      ensures forall kind, p :: kind in inventories && p in inventories[kind] ==> p.kind == kind
    {
      forall kind, p | kind in inventories && p in inventories[kind] ensures p.kind == kind {
        assert ListedWithin(history, 0, |history| - 1, kind, inventories[kind]);
      }
    }

    /** What the two passes have seen. */
    lemma PassesAgree(listedAt: seq<Files>, first: seq<Files>, second: seq<Files>, relistedAt: seq<Files>,
                      history: seq<Files>, inventories: map<Kind, set<Path>>, metadata: map<Path, Option<Signature>>)
      requires first <= second && Passed(listedAt, first, inventories, metadata)
      requires PassedAgain(second, relistedAt, history, inventories, metadata)
      ensures SameEvidence(history, |first| - 1, |second| - 1, inventories, metadata)
    {
      var start, last := |first| - 1, |second| - 1;
      forall kind: Kind
        ensures ListedWithin(history, 0, start, kind, inventories[kind])
                && ListedWithin(history, last, |history| - 1, kind, inventories[kind])
      {
        ListedLater(listedAt, history, 0, kind, inventories[kind]);
        ListedLater(relistedAt, history, last, kind, inventories[kind]);
      }
      forall p | p in metadata && metadata[p].Some?
        ensures SignedWithin(history, 0, start, p, metadata[p].value)
                && SignedWithin(history, last, |history| - 1, p, metadata[p].value)
      {
        SignedLater(first, history, 0, p, metadata[p].value);
      }
    }

    lemma SnapshotHolds(listedAt: seq<Files>, first: seq<Files>, filled: seq<Files>, second: seq<Files>,
                        relistedAt: seq<Files>,
                        history: seq<Files>, inventories: map<Kind, set<Path>>, metadata: map<Path, Option<Signature>>,
                        found: Collection, deletes: bool) returns (t: int)
      requires Evolves(history, deletes) && first != [] && first <= filled <= second <= history
      requires Passed(listedAt, first, inventories, metadata)
               && PassedAgain(second, relistedAt, history, inventories, metadata)
      requires Gathered(filled, rules, |first| - 1, found, inventories[Evaluations] + inventories[Observations])
               && !found.changed
      requires |Moving(rules, inventories, metadata, found, deletes)| <= 1
      ensures Consistent(history, deletes, |first| - 1, t, Concluded(found, true))
    {
      var start, last := |first| - 1, |second| - 1;
      PassesAgree(listedAt, first, second, relistedAt, history, inventories, metadata);
      AgreeingPassesFreeze(history, deletes, start, last, inventories, metadata);
      hide Evolves, SameEvidence, ListedWithin, SignedWithin, Still;
      assert history[..last + 1] == second;
      SeenLater(filled, second, start, found);
      t := SaidAtOnce(history, rules, start, last, Moving(rules, inventories, metadata, found, deletes), found);
      SaidIsHeld(history, rules, t, found);
      if NoneBlocking(found.diagnostics) && !deletes {
        WholeAtOnce(history, rules, t, inventories, found);
      }
    }

    lemma SeenLater(past: seq<Files>, history: seq<Files>, since: int, c: Collection)
      requires past <= history && Seen(past, rules, since, c)
      ensures Seen(history, rules, since, c)
    {
      if !c.changed {
        forall p: Path ensures SaysSince(history, rules, since, c, p) {
          SaysLater(past, history, rules, since, c, p);
        }
      }
    }

    /** A widened interval. */
    lemma FromStart(history: seq<Files>, low: int, high: int)
      requires 0 <= low
      ensures forall kind, names :: ListedWithin(history, low, high, kind, names) ==>
                ListedWithin(history, 0, high, kind, names)
      ensures forall p, s :: SignedWithin(history, low, high, p, s) ==> SignedWithin(history, 0, high, p, s)
    {
    }
  }
}
