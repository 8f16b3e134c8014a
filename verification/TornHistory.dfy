/**
  How much a lock-free read can promise. A reader that failed to examine two documents may report a torn snapshot as
  stable and complete, and what it knows promises one consistent moment exactly if it failed to examine at most one.
 */
module TornHistory {
  import opened Enumeration
  import opened HistoryReader
  import opened SharedDirectory
  import opened Wrappers

  // ---- a torn read ----

  /** Observations are user documents, and every other document is one of the field lab. */
  function Interpretation(p: Path, document: string): Decoded {
    if p.kind == Observations then Document(Value("", None, None, document)) else FieldLab(false)
  }

  const RULES := Rules(Interpretation, document => document, _ => true)

  /**
    Two files that are rewritten in step: at even moments only the first has the interesting content, at odd ones only
    the second.
   */
  function Alternating(one: Path, two: Path, t: nat): Files {
    map[one := Stored(t, if t % 2 == 0 then "x" else "-"), two := Stored(t, if t % 2 == 0 then "-" else "x")]
  }

  function Alternation(one: Path, two: Path): (history: seq<Files>)
    ensures |history| == 6 && forall t :: 0 <= t < 6 ==> history[t] == Alternating(one, two, t)
  {
    seq(6, t requires 0 <= t => Alternating(one, two, t))
  }

  lemma AlternationEvolves(one: Path, two: Path)
    ensures Evolves(Alternation(one, two), false)
  {
    var history := Alternation(one, two);
    forall k | 0 < k < |history| ensures Follows(history[..k], history[k], false) {
      forall p | p in history[k] ensures Unseen(history[..k], p, history[k][p].signature) {
        forall i | 0 <= i < k && p in history[..k][i] ensures history[..k][i][p].signature != history[k][p].signature {
          assert history[..k][i] == Alternating(one, two, i);
        }
      }
      assert history[..k][k - 1] == Alternating(one, two, k - 1);
    }
  }

  /** The first pass over the digests, for one document. */
  function Digesting(c: Collection, files: Files, p: Path): Collection {
    c.(manifest := c.manifest[p := DigestIn(RULES, files, p)])
  }

  /** The loading of one listed document; the documents that evaluations refer to are loaded only when they do. */
  function Loading(c: Collection, files: Files, p: Path): Collection
    requires p in files
  {
    if p.kind in {Evaluations, Observations} then Loaded(RULES, c, p, files[p].document, DigestIn(RULES, files, p))
       else c
  }

  const NOTHING := Collection(map[], map[], [], false)

  function Digests(one: Path, two: Path): Collection {
    Digesting(Digesting(NOTHING, Alternating(one, two, 0), one), Alternating(one, two, 1), two)
  }

  /** What a reader collects that takes the digests at moments 0 and 1, and loads the documents at moments 2 and 3. */
  function Torn(one: Path, two: Path): Collection {
    Loading(Loading(Digests(one, two), Alternating(one, two, 2), one), Alternating(one, two, 3), two)
  }

  function Listed(one: Path, two: Path): (inventories: map<Kind, set<Path>>)
    ensures forall kind: Kind :: kind in inventories
  {
    AllKinds();
    map kind: Kind | kind in KINDS :: set p | p in {one, two} && p.kind == kind
  }

  /** The documents among these that the reader loads without being referred to them. */
  function Tried(paths: set<Path>): set<Path> {
    set p | p in paths && p.kind in {Evaluations, Observations}
  }

  /** One document loaded by the reader's own step. */
  lemma LoadingIsCollected(past: seq<Files>, history: seq<Files>, c: Collection, done: set<Path>, p: Path)
    requires past <= history && history != [] && Collected(past, RULES, 0, c, done) && p !in done
             && p in history[|history| - 1]
    ensures Collected(history, RULES, 0, Loading(c, history[|history| - 1], p), done + Tried({p}))
  {
    var files := history[|history| - 1];
    if p.kind in {Evaluations, Observations} {
      var next := Loading(c, files, p);
      assert Untried(c, p);
      LoadedStep(RULES, c, p, files[p].document, DigestIn(RULES, files, p));
      LoadedSays(files, RULES, c, p);
      assert next.changed || SaysSince(history, RULES, 0, next, p);
      TriedStep(past, history, RULES, 0, c, next, done, p);
      assert Tried({p}) == {p};
    } else {
      CollectedLater(past, history, RULES, 0, c, done);
      assert done + Tried({p}) == done;
    }
  }

  lemma DigestsAreCollected(one: Path, two: Path, history: seq<Files>)
    requires |history| == 2 && history[0] == Alternating(one, two, 0) && history[1] == Alternating(one, two, 1)
    ensures Collected(history, RULES, 0, Digests(one, two), {})
  {
    NothingCollected(history[..1], RULES, 0, NOTHING);
    DigestedStep(history[..1], history[..1], RULES, 0, NOTHING, one, DigestIn(RULES, history[0], one));
    hide Collected, DigestIn;
    DigestedStep(history[..1], history, RULES, 0, Digesting(NOTHING, history[0], one), two,
                 DigestIn(RULES, history[1], two));
  }

  lemma TornIsCollected(one: Path, two: Path)
    requires one != two
    ensures Collected(Alternation(one, two)[..4], RULES, 0, Torn(one, two), Tried({one, two}))
  {
    var h := Alternation(one, two);
    DigestsAreCollected(one, two, h[..2]);
    hide Collected, Digests, Loading, Alternation;
    assert h[..2] <= h[..3] <= h[..4] && one in h[2] && two in h[3];
    LoadingIsCollected(h[..2], h[..3], Digests(one, two), {}, one);
    assert two !in {} + Tried({one});
    LoadingIsCollected(h[..3], h[..4], Loading(Digests(one, two), h[2], one), {} + Tried({one}), two);
    assert {} + Tried({one}) + Tried({two}) == Tried({one, two});
  }

  lemma ListedAndUnsigned(one: Path, two: Path)
    ensures SameEvidence(Alternation(one, two), 0, 5, Listed(one, two), map[one := None, two := None])
    ensures Missed(Listed(one, two), map[one := None, two := None]) == {one, two}
  {
    var h, inventories := Alternation(one, two), Listed(one, two);
    forall kind: Kind
      ensures ListedWithin(h, 0, 0, kind, inventories[kind]) && ListedWithin(h, 5, 5, kind, inventories[kind])
    {
      assert Names(h[0], kind) == inventories[kind] == Names(h[5], kind);
    }
    assert one in inventories[one.kind] && two in inventories[two.kind];
    var metadata: map<Path, Option<Signature>> := map[one := None, two := None];
    forall p ensures p in Missed(inventories, metadata) <==> p in {one, two} {
      if p in {one, two} {
        assert p in inventories[p.kind] && p in metadata && metadata[p].None?;
      }
    }
  }

  /** Both digests are of the content that the store never held in both files at once. */
  lemma TornManifest(one: Path, two: Path)
    requires one != two
    ensures var c := Torn(one, two);
            && c.manifest == map[one := Sha("x"), two := Sha("x")] && !c.changed && NoneBlocking(c.diagnostics)
            && c.values.Keys <= {one, two} && forall p :: p in c.values ==> p.kind == Observations
  {
    DigestsAre(one, two);
    LoadingKeeps(Digests(one, two), Alternating(one, two, 2), one, "x");
    LoadingKeeps(Loading(Digests(one, two), Alternating(one, two, 2), one), Alternating(one, two, 3), two, "x");
    hide Loading, Digests, Alternating;
  }

  lemma DigestsAre(one: Path, two: Path)
    requires one != two
    ensures Digests(one, two) == Collection(map[], map[one := Sha("x"), two := Sha("x")], [], false)
  {
  }

  /** Loading what the digest was taken of changes only the values and the excuses. */
  lemma LoadingKeeps(c: Collection, files: Files, p: Path, document: string)
    requires p in files && files[p].document == document && |document| <= MAX_DOCUMENT_BYTES
    requires p in c.manifest && c.manifest[p] == Sha(document) && !c.changed && NoneBlocking(c.diagnostics)
    ensures var next := Loading(c, files, p);
            && next.manifest == c.manifest && !next.changed && NoneBlocking(next.diagnostics)
            && next.values.Keys <= c.values.Keys + {p}
            && ((forall q :: q in c.values ==> q.kind == Observations) ==> forall q :: q in next.values ==>
                q.kind == Observations)
  {
  }

  /**
    Two documents that could not be examined can tear a read. Whatever kinds they have, and whichever is read first:
    both passes agree, every digest is confirmed, and what the reader's own steps collect is reported as stable and
    complete, although the store held it at no moment.
   */
  lemma TornRead(one: Path, two: Path)
    requires one != two
    ensures var history, inventories := Alternation(one, two), Listed(one, two);
            var metadata: map<Path, Option<Signature>> := map[one := None, two := None];
            var found := Torn(one, two);
            var returned := Concluded(found, true);
            && Evolves(history, false) && SameEvidence(history, 0, 5, inventories, metadata)
            && Moving(RULES, inventories, metadata, found, false) == {one, two}
            && Gathered(history[..4], RULES, 0, found, inventories[Evaluations] + inventories[Observations])
               && !found.changed
            && found.manifest.Keys == {one, two}
            && found.manifest[one] == DigestIn(RULES, history[4], one)
               && found.manifest[two] == DigestIn(RULES, history[5], two)
            && returned.stable && returned.complete
            && forall t :: !HeldAt(history, RULES, t, returned.found)
  {
    var history, inventories, found := Alternation(one, two), Listed(one, two), Torn(one, two);
    AlternationEvolves(one, two);
    ListedAndUnsigned(one, two);
    TornManifest(one, two);
    TornIsGathered(one, two);
    TornIsNeverHeld(one, two);
    DigestsAgain(one, two);
    BothMove(one, two);
    hide *;
  }

  lemma BothMove(one: Path, two: Path)
    requires one != two
    ensures Moving(RULES, Listed(one, two), map[one := None, two := None], Torn(one, two), false) == {one, two}
  {
    ListedAndUnsigned(one, two);
    TornManifest(one, two);
    hide Torn, Listed, Missed;
    assert Moving(RULES, Listed(one, two), map[one := None, two := None], Torn(one, two), false) <= {one, two};
  }

  lemma DigestsAgain(one: Path, two: Path)
    requires one != two
    ensures var history := Alternation(one, two);
            DigestIn(RULES, history[4], one) == Sha("x") == DigestIn(RULES, history[5], two)
  {
  }

  lemma TornIsNeverHeld(one: Path, two: Path)
    requires one != two
    ensures forall t :: !HeldAt(Alternation(one, two), RULES, t, Torn(one, two))
  {
    var history, found := Alternation(one, two), Torn(one, two);
    TornManifest(one, two);
    hide Torn, Alternation;
    forall t | 0 <= t < 6 ensures !HeldAt(history, RULES, t, found) {
      assert DigestIn(RULES, history[t], one) != Sha("x") || DigestIn(RULES, history[t], two) != Sha("x");
      assert one in found.manifest && two in found.manifest;
    }
  }

  lemma TornIsGathered(one: Path, two: Path)
    requires one != two
    ensures var inventories := Listed(one, two);
            Gathered(Alternation(one, two)[..4], RULES, 0, Torn(one, two),
                     inventories[Evaluations] + inventories[Observations])
  {
    TornIsCollected(one, two);
    TornManifest(one, two);
    hide Torn, Seen, Accounted, Silent;
    assert Joined(Torn(one, two).values, Torn(one, two).diagnostics);
  }

  // ---- what a reader can know ----

  /** The listed documents without a signature, as far as the reader opens them. */
  function Unexamined(rules: Rules, inventories: map<Kind, set<Path>>,
                      metadata: map<Path, Option<Signature>>): set<Path> {
    set p | p in Missed(inventories, metadata) && rules.valid(p)
  }

  /** What the reader holds after its passes: the names of every kind, and signatures of listed files only. */
  ghost predicate Evidence(inventories: map<Kind, set<Path>>, metadata: map<Path, Option<Signature>>) {
    && (forall kind: Kind :: kind in inventories && forall p :: p in inventories[kind] ==> p.kind == kind)
    && (forall p :: p in metadata && metadata[p].Some? ==> p in inventories[p.kind])
  }

  /** Whatever the store went through while files were only created and replaced, this evidence promises one moment. */
  ghost predicate Promises(rules: Rules, inventories: map<Kind, set<Path>>, metadata: map<Path, Option<Signature>>) {
    forall history: seq<Files>, first: nat, last: nat, c: Collection ::
      && Evolves(history, false) && first <= last < |history|
         && SameEvidence(history, first, last, inventories, metadata)
      && Gathered(history[..last + 1], rules, first, c, {}) && !c.changed
      ==> exists t :: first <= t <= last && HeldAt(history, rules, t, c)
  }

  /** A store in which all but two files stand still, while those two exchange two contents. */
  function Exchanging(inventories: map<Kind, set<Path>>, metadata: map<Path, Option<Signature>>, one: Path, two: Path,
                      u: string, v: string, t: nat): (files: Files)
  {
    map kind, p | kind in inventories && p in inventories[kind] ::
      p := if p == one then Stored(t, if t == 0 then u else v)
           else if p == two then Stored(t, if t == 0 then v else u)
           else if p in metadata && metadata[p].Some? then Stored(metadata[p].value, "") else Stored(0, "")
  }

  lemma ExchangeEvolves(inventories: map<Kind, set<Path>>, metadata: map<Path, Option<Signature>>, one: Path, two: Path,
                        u: string, v: string)
    ensures var e := t => Exchanging(inventories, metadata, one, two, u, v, t);
            Evolves([e(0), e(1)], false)
  {
    var a, b := Exchanging(inventories, metadata, one, two, u, v, 0),
        Exchanging(inventories, metadata, one, two, u, v, 1);
    var history := [a, b];
    assert history[..1] == [a];
  }

  lemma ExchangeShows(inventories: map<Kind, set<Path>>, metadata: map<Path, Option<Signature>>, one: Path, two: Path,
                      u: string, v: string)
    requires Evidence(inventories, metadata) && {one, two} <= Missed(inventories, metadata)
    ensures var a, b := Exchanging(inventories, metadata, one, two, u, v, 0),
            Exchanging(inventories, metadata, one, two, u, v, 1);
            SameEvidence([a, b], 0, 1, inventories, metadata)
  {
    var a, b := Exchanging(inventories, metadata, one, two, u, v, 0),
        Exchanging(inventories, metadata, one, two, u, v, 1);
    var history := [a, b];
    forall kind: Kind
      ensures ListedWithin(history, 0, 0, kind, inventories[kind])
              && ListedWithin(history, 1, 1, kind, inventories[kind])
    {
      assert Names(history[0], kind) == inventories[kind] == Names(history[1], kind);
    }
    forall p | p in metadata && metadata[p].Some?
      ensures SignedWithin(history, 0, 0, p, metadata[p].value) && SignedWithin(history, 1, 1, p, metadata[p].value)
    {
      assert p in inventories[p.kind] && p != one && p != two;
      assert SignedAt(history, 0, p, metadata[p].value) && SignedAt(history, 1, p, metadata[p].value);
    }
  }

  lemma TwoBreakThePromise(rules: Rules, inventories: map<Kind, set<Path>>, metadata: map<Path, Option<Signature>>,
                           one: Path, two: Path, u: string, v: string)
    requires Evidence(inventories, metadata) && one != two && {one, two} <= Unexamined(rules, inventories, metadata)
    requires rules.sha(u) != rules.sha(v) && |u| <= MAX_DOCUMENT_BYTES && |v| <= MAX_DOCUMENT_BYTES
    ensures !Promises(rules, inventories, metadata)
  {
    var a, b := Exchanging(inventories, metadata, one, two, u, v, 0),
        Exchanging(inventories, metadata, one, two, u, v, 1);
    var c := Collection(map[], map[one := Sha(rules.sha(u)), two := Sha(rules.sha(u))], [], false);
    ExchangeEvolves(inventories, metadata, one, two, u, v);
    ExchangeShows(inventories, metadata, one, two, u, v);
    Exchanged(inventories, metadata, one, two, u, v, 0);
    Exchanged(inventories, metadata, one, two, u, v, 1);
    hide Exchanging, Evolves, SameEvidence, Missed, Gathered, HeldAt, Evidence;
    ExchangeIsGathered(rules, a, b, one, two, u, v);
    ExchangeIsNeverHeld(rules, a, b, one, two, u, v);
    assert [a, b][..1 + 1] == [a, b];
    NoPromise(rules, inventories, metadata, [a, b], 0, 1, c);
  }

  lemma NoPromise(rules: Rules, inventories: map<Kind, set<Path>>, metadata: map<Path, Option<Signature>>,
                  history: seq<Files>, first: nat, last: nat, c: Collection)
    requires Evolves(history, false) && first <= last < |history|
             && SameEvidence(history, first, last, inventories, metadata)
    requires Gathered(history[..last + 1], rules, first, c, {}) && !c.changed
    requires forall t :: !HeldAt(history, rules, t, c)
    ensures !Promises(rules, inventories, metadata)
  {
    hide Evolves, SameEvidence, Gathered, HeldAt;
  }

  lemma Exchanged(inventories: map<Kind, set<Path>>, metadata: map<Path, Option<Signature>>, one: Path, two: Path,
                  u: string, v: string, t: nat)
    requires Evidence(inventories, metadata) && one != two && {one, two} <= Missed(inventories, metadata)
    ensures var files := Exchanging(inventories, metadata, one, two, u, v, t);
            && one in files && files[one].document == (if t == 0 then u else v)
            && two in files && files[two].document == (if t == 0 then v else u)
  {
    assert one in inventories[one.kind] && two in inventories[two.kind];
  }

  lemma ExchangeIsGathered(rules: Rules, a: Files, b: Files, one: Path, two: Path, u: string, v: string)
    requires one != two && rules.valid(one) && rules.valid(two) && |u| <= MAX_DOCUMENT_BYTES
    requires one in a && a[one].document == u && two in b && b[two].document == u
    ensures Gathered([a, b], rules, 0,
                     Collection(map[], map[one := Sha(rules.sha(u)), two := Sha(rules.sha(u))], [], false), {})
  {
    var history, c := [a, b], Collection(map[], map[one := Sha(rules.sha(u)), two := Sha(rules.sha(u))], [], false);
    forall p: Path ensures SaysSince(history, rules, 0, c, p) {
      assert if p == two then Says(history[1], rules, c, p) else Says(history[0], rules, c, p);
    }
  }

  lemma ExchangeIsNeverHeld(rules: Rules, a: Files, b: Files, one: Path, two: Path, u: string, v: string)
    requires one != two && rules.valid(one) && rules.valid(two) && rules.sha(u) != rules.sha(v)
    requires |u| <= MAX_DOCUMENT_BYTES && |v| <= MAX_DOCUMENT_BYTES
    requires two in a && a[two].document == v && one in b && b[one].document == v
    ensures var c := Collection(map[], map[one := Sha(rules.sha(u)), two := Sha(rules.sha(u))], [], false);
            forall t :: !HeldAt([a, b], rules, t, c)
  {
    var history, c := [a, b], Collection(map[], map[one := Sha(rules.sha(u)), two := Sha(rules.sha(u))], [], false);
    forall t | 0 <= t <= 1 ensures !HeldAt(history, rules, t, c) {
      assert one in c.manifest && two in c.manifest;
    }
  }

  lemma OneKeepsThePromise(rules: Rules, inventories: map<Kind, set<Path>>, metadata: map<Path, Option<Signature>>)
    requires |Unexamined(rules, inventories, metadata)| <= 1
    ensures Promises(rules, inventories, metadata)
  {
    forall history: seq<Files>, first: nat, last: nat, c: Collection |
      && Evolves(history, false) && first <= last < |history|
         && SameEvidence(history, first, last, inventories, metadata)
      && Gathered(history[..last + 1], rules, first, c, {}) && !c.changed
      ensures exists t :: first <= t <= last && HeldAt(history, rules, t, c)
    {
      AgreeingPassesFreeze(history, false, first, last, inventories, metadata);
      hide Evolves, SameEvidence, Still;
      var t := SaidAtOnce(history, rules, first, last, Unexamined(rules, inventories, metadata), c);
      SaidIsHeld(history, rules, t, c);
    }
  }

  /**
    What a reader knows after two agreeing passes promises that everything it read was there at one moment, if and only
    if it failed to examine at most one of the documents that it reads.
   */
  lemma PromisedExactly(rules: Rules, inventories: map<Kind, set<Path>>, metadata: map<Path, Option<Signature>>,
                        u: string, v: string)
    requires Evidence(inventories, metadata)
    requires rules.sha(u) != rules.sha(v) && |u| <= MAX_DOCUMENT_BYTES && |v| <= MAX_DOCUMENT_BYTES
    ensures Promises(rules, inventories, metadata) <==> |Unexamined(rules, inventories, metadata)| <= 1
  {
    var unexamined := Unexamined(rules, inventories, metadata);
    if |unexamined| <= 1 {
      OneKeepsThePromise(rules, inventories, metadata);
    } else {
      var one :| one in unexamined;
      assert |unexamined - {one}| == |unexamined| - 1;
      var two :| two in unexamined - {one};
      TwoBreakThePromise(rules, inventories, metadata, one, two, u, v);
    }
  }
}
