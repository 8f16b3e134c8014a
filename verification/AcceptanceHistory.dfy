/**
  The validated-history cache of the acceptance lineage store and the session snapshot on top of it: decoded
  entries are kept per file signature and reused while the signature stays.
 */
module AcceptanceHistory {
  import opened Enumeration
  import opened SharedDirectory
  import opened Wrappers

  /** What is kept of a decoded document. */
  type Entry = string

  type Cached = (Signature, Entry)

  const KIND: Kind := Decisions

  /** Some version of the file with this signature decodes to this entry. */
  ghost predicate Backed(history: seq<Files>, decode: string -> Result<Entry>, p: Path, v: Cached) {
    exists t :: SignedAt(history, t, p, v.0) && decode(history[t][p].document) == Success(v.1)
  }

  /** The file held a document that decodes to this entry at `since` or later, whatever its signature was. */
  ghost predicate ReadSince(history: seq<Files>, decode: string -> Result<Entry>, since: int, p: Path, entry: Entry) {
    0 <= since && exists t :: since <= t < |history| && p in history[t]
                              && decode(history[t][p].document) == Success(entry)
  }

  ghost predicate AllBacked(history: seq<Files>, decode: string -> Result<Entry>, cache: map<Path, Cached>) {
    forall p :: p in cache ==> Backed(history, decode, p, cache[p])
  }

  lemma KeptIsBacked(history: seq<Files>, decode: string -> Result<Entry>, cache: map<Path, Cached>, kept: set<Path>)
    requires AllBacked(history, decode, cache)
    ensures AllBacked(history, decode, map p | p in kept && p in cache :: cache[p])
  {
    hide Backed;
  }

  /** While a scan runs, an entry may have been read after its signature was taken, so it is not backed yet. */
  ghost predicate Tentative(history: seq<Files>, decode: string -> Result<Entry>, since: int,
                            before: map<Path, Signature>, cache: map<Path, Cached>)
  {
    forall p :: p in cache ==>
      Backed(history, decode, p, cache[p])
      || (p in before && cache[p].0 == before[p] && ReadSince(history, decode, since, p, cache[p].1))
  }

  /** The entries are the decodings of exactly the files present at moment `t`, one each. */
  ghost predicate DecodedAt(history: seq<Files>, decode: string -> Result<Entry>, t: int, order: seq<Path>,
                            entries: seq<Entry>) {
    && 0 <= t < |history| && Listing(order, Names(history[t], KIND)) && |entries| == |order|
    && forall i :: 0 <= i < |order| ==>
         order[i] in history[t] && decode(history[t][order[i]].document) == Success(entries[i])
  }

  lemma BackedLater(before: seq<Files>, after: seq<Files>, decode: string -> Result<Entry>, p: Path, v: Cached)
    requires before <= after && Backed(before, decode, p, v)
    ensures Backed(after, decode, p, v)
  {
    var t :| SignedAt(before, t, p, v.0) && decode(before[t][p].document) == Success(v.1);
    assert SignedAt(after, t, p, v.0);
  }

  lemma AllBackedLater(before: seq<Files>, after: seq<Files>, decode: string -> Result<Entry>, cache: map<Path, Cached>)
    requires before <= after && AllBacked(before, decode, cache)
    ensures AllBacked(after, decode, cache)
  {
    forall p | p in cache ensures Backed(after, decode, p, cache[p]) {
      BackedLater(before, after, decode, p, cache[p]);
    }
  }

  lemma TentativeLater(past: seq<Files>, after: seq<Files>, decode: string -> Result<Entry>, since: int,
                       before: map<Path, Signature>, cache: map<Path, Cached>)
    requires past <= after && 0 <= since && Tentative(past, decode, since, before, cache)
    ensures Tentative(after, decode, since, before, cache)
  {
    forall p | p in cache
      ensures Backed(after, decode, p, cache[p])
              || (p in before && cache[p].0 == before[p] && ReadSince(after, decode, since, p, cache[p].1))
    {
      if Backed(past, decode, p, cache[p]) {
        BackedLater(past, after, decode, p, cache[p]);
      } else {
        var t :| since <= t < |past| && p in past[t] && decode(past[t][p].document) == Success(cache[p].1);
        assert past[t] == after[t];
      }
    }
  }

  /**
    The second scan settles it: if it finds every signature of the first, then whatever was read in between is what
    the files held, with those signatures, at the moment of the second enumeration.
   */
  lemma Settled(history: seq<Files>, deletes: bool, decode: string -> Result<Entry>, since: nat, second: nat,
                before: map<Path, Signature>, cache: map<Path, Cached>, end: nat)
    requires Evolves(history, deletes) && since < end <= second + 1 && second < |history|
    requires forall p :: p in before ==>
               SignedWithin(history, 0, since, p, before[p])
                   && SignedWithin(history, second, |history| - 1, p, before[p])
    requires Tentative(history[..end], decode, since, before, cache)
    ensures AllBacked(history, decode, cache)
  {
    forall p | p in cache ensures Backed(history, decode, p, cache[p]) {
      if Backed(history[..end], decode, p, cache[p]) {
        BackedLater(history[..end], history, decode, p, cache[p]);
      } else {
        var t :| since <= t < end && p in history[..end][t]
            && decode(history[..end][t][p].document) == Success(cache[p].1);
        var i :| 0 <= i <= since && SignedAt(history, i, p, before[p]);
        var k :| second <= k <= |history| - 1 && SignedAt(history, k, p, before[p]);
        Constant(history, deletes, i, t, k, p, before[p]);
      }
    }
  }

  /** Backed entries under the signatures of a scan are the decodings at the moment of its enumeration. */
  lemma BackedIsDecoded(history: seq<Files>, deletes: bool, decode: string -> Result<Entry>, t: nat, order: seq<Path>,
                        signatures: map<Path, Signature>, entries: seq<Entry>)
    requires Evolves(history, deletes) && t < |history| && Listing(order, signatures.Keys) && |entries| == |order|
    requires signatures.Keys == Names(history[t], KIND)
    requires forall p :: p in signatures ==> SignedAt(history, t, p, signatures[p])
    requires forall i :: 0 <= i < |order| ==>
               order[i] in signatures && Backed(history, decode, order[i], (signatures[order[i]], entries[i]))
    ensures DecodedAt(history, decode, t, order, entries)
  {
    forall i | 0 <= i < |order|
      ensures order[i] in history[t] && decode(history[t][order[i]].document) == Success(entries[i])
    {
      var p := order[i];
      assert Backed(history, decode, p, (signatures[p], entries[i]));
      var k :| SignedAt(history, k, p, signatures[p]) && decode(history[k][p].document) == Success(entries[i]);
      SignatureNamesDocument(history, deletes, k, t, p, signatures[p]);
    }
  }

  ghost predicate Holds(cache: map<Path, Cached>, p: Path, before: map<Path, Signature>, entry: Entry) {
    p in before && p in cache && cache[p] == (before[p], entry)
  }

  ghost predicate Filled(cache: map<Path, Cached>, order: seq<Path>, before: map<Path, Signature>,
                         entries: seq<Entry>) {
    |entries| == |order| && forall i :: 0 <= i < |order| ==> Holds(cache, order[i], before, entries[i])
  }

  lemma FilledStep(cache: map<Path, Cached>, order: seq<Path>, n: nat, before: map<Path, Signature>,
                   entries: seq<Entry>, entry: Entry)
    requires n < |order| && Listing(order, before.Keys) && order[n] in before
             && Filled(cache, order[..n], before, entries)
    ensures Filled(cache[order[n] := (before[order[n]], entry)], order[..n + 1], before, entries + [entry])
  {
    forall i | 0 <= i < n + 1
      ensures Holds(cache[order[n] := (before[order[n]], entry)], order[..n + 1][i], before, (entries + [entry])[i])
    {
      if i < n {
        assert Holds(cache, order[..n][i], before, entries[i]);
      }
    }
  }

  lemma TentativeEntry(history: seq<Files>, decode: string -> Result<Entry>, since: int, before: map<Path, Signature>,
                       cache: map<Path, Cached>, p: Path, entry: Entry)
    requires Tentative(history, decode, since, before, cache) && p in before && 0 <= since < |history|
    requires p in history[|history| - 1] && decode(history[|history| - 1][p].document) == Success(entry)
    ensures Tentative(history, decode, since, before, cache[p := (before[p], entry)])
  {
    assert ReadSince(history, decode, since, p, entry);
  }

  /** What a finished scan leaves: entries backed under the signatures that both scans agree on. */
  lemma ScanIsDecoded(first: seq<Files>, filled: seq<Files>, history: seq<Files>, deletes: bool,
                      decode: string -> Result<Entry>,
                      second: nat, order: seq<Path>, before: map<Path, Signature>, cache: map<Path, Cached>,
                      entries: seq<Entry>)
    requires Evolves(history, deletes) && first != [] && first <= filled <= history
             && |filled| - 1 <= second < |history|
    requires forall p :: p in before ==> SignedWithin(first, 0, |first| - 1, p, before[p])
    requires forall p :: p in before ==> SignedWithin(history, second, |history| - 1, p, before[p])
    requires before.Keys == Names(history[second], KIND) && Listing(order, before.Keys)
    requires Tentative(filled, decode, |first| - 1, before, cache) && Filled(cache, order, before, entries)
    ensures AllBacked(history, decode, cache) && DecodedAt(history, decode, second, order, entries)
  {
    hide Evolves, Backed, SignedWithin, Tentative, DecodedAt, SignedAt;
    forall p | p in before
      ensures SignedWithin(history, 0, |first| - 1, p, before[p]) && SignedAt(history, second, p, before[p])
    {
      Widen(first, history, second, p, before[p]);
      SameAround(history, deletes, 0, second, p, before[p]);
    }
    assert history[..|filled|] == filled;
    Settled(history, deletes, decode, |first| - 1, second, before, cache, |filled|);
    forall i | 0 <= i < |order|
      ensures order[i] in before && Backed(history, decode, order[i], (before[order[i]], entries[i]))
    {
      assert Holds(cache, order[i], before, entries[i]);
    }
    BackedIsDecoded(history, deletes, decode, second, order, before, entries);
  }

  /** A signature seen by the end of an earlier history was seen before any later moment. */
  lemma Widen(first: seq<Files>, history: seq<Files>, mid: int, p: Path, signature: Signature)
    requires first <= history && |first| - 1 <= mid && SignedWithin(first, 0, |first| - 1, p, signature)
    ensures SignedWithin(history, 0, |first| - 1, p, signature) && SignedWithin(history, 0, mid, p, signature)
  {
    var t :| 0 <= t <= |first| - 1 && SignedAt(first, t, p, signature);
    assert SignedAt(history, t, p, signature);
  }

  /**
    A session snapshot: for each signature, an entry that some version with that signature decodes to. There may be
    more entries than signatures, of files that were there only between the scans.
   */
  ghost predicate Remembered(history: seq<Files>, decode: string -> Result<Entry>, order: seq<Path>,
                             signatures: map<Path, Signature>, entries: seq<Entry>)
  {
    && Distinct(order) && |entries| == |order| && (forall p :: p in signatures ==> p in order)
    && forall i :: 0 <= i < |order| && order[i] in signatures ==>
         Backed(history, decode, order[i], (signatures[order[i]], entries[i]))
  }

  lemma RememberedLater(past: seq<Files>, after: seq<Files>, decode: string -> Result<Entry>, order: seq<Path>,
                        signatures: map<Path, Signature>, entries: seq<Entry>)
    requires past <= after && Remembered(past, decode, order, signatures, entries)
    ensures Remembered(after, decode, order, signatures, entries)
  {
    forall i | 0 <= i < |order| && order[i] in signatures
      ensures Backed(after, decode, order[i], (signatures[order[i]], entries[i]))
    {
      BackedLater(past, after, decode, order[i], (signatures[order[i]], entries[i]));
    }
  }

  function Members(order: seq<Path>): set<Path> {
    set p | p in order
  }

  /** A snapshot with one entry per signature has entries of exactly the files in its signatures. */
  lemma OneEach(order: seq<Path>, names: set<Path>)
    requires Distinct(order) && (forall p :: p in names ==> p in order)
    ensures Listing(order, names) <==> |order| == |names|
  {
    EnumerationLength(order, Members(order));
    assert names <= Members(order);
    assert Listing(order, names) ==> names == Members(order);
    if |order| == |names| {
      EqualBySize(names, Members(order));
    }
  }

  /** The entries are the decodings of the files present at moment `t`, in some order. */
  ghost predicate Decoded(history: seq<Files>, decode: string -> Result<Entry>, t: int, entries: seq<Entry>) {
    exists order :: DecodedAt(history, decode, t, order, entries)
  }

  /**
    A snapshot whose signatures are all found again is still what the files hold, exactly if it has one entry for each.
   */
  lemma RememberedIsDecoded(past: seq<Files>, history: seq<Files>, deletes: bool, decode: string -> Result<Entry>,
                            scanned: nat, order: seq<Path>, signatures: map<Path, Signature>, entries: seq<Entry>)
    requires Evolves(history, deletes) && past <= history && |past| - 1 <= scanned < |history|
    requires Remembered(past, decode, order, signatures, entries) && signatures.Keys == Names(history[scanned], KIND)
    requires forall p :: p in signatures ==> SignedWithin(history, scanned, |history| - 1, p, signatures[p])
    ensures |entries| == |signatures| ==> DecodedAt(history, decode, scanned, order, entries)
    ensures Decoded(history, decode, scanned, entries) <==> |entries| == |signatures|
  {
    assert |signatures| == |signatures.Keys|;
    hide Remembered, Evolves, DecodedAt, Listing;
    if |entries| == |signatures| {
      RememberedOneEach(past, history, deletes, decode, scanned, order, signatures, entries);
    } else if Decoded(history, decode, scanned, entries) {
      var other :| DecodedAt(history, decode, scanned, other, entries);
      DecodedOneEach(history, decode, scanned, other, entries);
    }
  }

  lemma DecodedOneEach(history: seq<Files>, decode: string -> Result<Entry>, t: int, order: seq<Path>,
                       entries: seq<Entry>)
    requires DecodedAt(history, decode, t, order, entries)
    ensures 0 <= t < |history| && |entries| == |Names(history[t], KIND)|
  {
    OneEach(order, Names(history[t], KIND));
  }

  lemma StillSigned(past: seq<Files>, history: seq<Files>, deletes: bool, decode: string -> Result<Entry>, scanned: nat,
                    p: Path, v: Cached)
    requires Evolves(history, deletes) && past <= history && |past| - 1 <= scanned < |history|
             && Backed(past, decode, p, v)
    requires SignedWithin(history, scanned, |history| - 1, p, v.0)
    ensures SignedAt(history, scanned, p, v.0)
  {
    var t :| SignedAt(past, t, p, v.0) && decode(past[t][p].document) == Success(v.1);
    assert SignedAt(history, t, p, v.0);
    SameAround(history, deletes, 0, scanned, p, v.0);
  }

  lemma RememberedOneEach(past: seq<Files>, history: seq<Files>, deletes: bool, decode: string -> Result<Entry>,
                          scanned: nat, order: seq<Path>, signatures: map<Path, Signature>, entries: seq<Entry>)
    requires Evolves(history, deletes) && past <= history && |past| - 1 <= scanned < |history|
    requires Remembered(past, decode, order, signatures, entries) && signatures.Keys == Names(history[scanned], KIND)
    requires forall p :: p in signatures ==> SignedWithin(history, scanned, |history| - 1, p, signatures[p])
    requires |entries| == |signatures.Keys|
    ensures DecodedAt(history, decode, scanned, order, entries)
  {
    OneEachBacked(past, decode, order, signatures, entries);
    forall i | 0 <= i < |order|
      ensures order[i] in signatures && SignedAt(history, scanned, order[i], signatures[order[i]])
                                        && Backed(history, decode, order[i], (signatures[order[i]], entries[i])) {
      StillSigned(past, history, deletes, decode, scanned, order[i], (signatures[order[i]], entries[i]));
      BackedLater(past, history, decode, order[i], (signatures[order[i]], entries[i]));
    }
    BackedIsDecoded(history, deletes, decode, scanned, order, signatures, entries);
  }

  lemma OneEachBacked(past: seq<Files>, decode: string -> Result<Entry>, order: seq<Path>,
                      signatures: map<Path, Signature>, entries: seq<Entry>)
    requires Remembered(past, decode, order, signatures, entries) && |entries| == |signatures.Keys|
    ensures Listing(order, signatures.Keys) && |entries| == |order|
    ensures forall i :: 0 <= i < |order| ==>
              order[i] in signatures && Backed(past, decode, order[i], (signatures[order[i]], entries[i]))
  {
    OneEach(order, signatures.Keys);
    assert forall i :: 0 <= i < |order| ==> order[i] in order;
  }

  lemma DecodedLater(past: seq<Files>, after: seq<Files>, decode: string -> Result<Entry>, t: int, order: seq<Path>,
                     entries: seq<Entry>)
    requires past <= after && DecodedAt(past, decode, t, order, entries)
    ensures DecodedAt(after, decode, t, order, entries)
  {
    assert past[t] == after[t];
  }

  lemma DecodedWithin(history: seq<Files>, decode: string -> Result<Entry>, t: int, order: seq<Path>,
                      entries: seq<Entry>)
    requires DecodedAt(history, decode, t, order, entries)
    ensures 0 <= t < |history|
  {
  }

  /**
    Between two equal scans every file of the scans held what both found. So entries decoded in between cover the
    scans' signatures, and they are entries of just those files exactly if there is one for each.
   */
  lemma SnapshotIsRemembered(first: seq<Files>, history: seq<Files>, deletes: bool, decode: string -> Result<Entry>,
                             scanned: nat, t: nat,
                             second: nat, order: seq<Path>, before: map<Path, Signature>, entries: seq<Entry>)
    requires Evolves(history, deletes) && first != [] && first <= history
    requires scanned < |first| && |first| - 1 <= t <= second < |history|
    requires before.Keys == Names(first[scanned], KIND) == Names(history[second], KIND)
    requires forall p :: p in before ==> SignedWithin(first, scanned, |first| - 1, p, before[p])
    requires forall p :: p in before ==> SignedWithin(history, second, |history| - 1, p, before[p])
    requires DecodedAt(history, decode, t, order, entries)
    ensures Remembered(history, decode, order, before, entries)
    ensures Names(history[t], KIND) == before.Keys <==> |entries| == |before|
    ensures !deletes ==> |entries| == |before|
  {
    forall p | p in before ensures p in Names(history[t], KIND) && SignedAt(history, t, p, before[p]) {
      assert SignedWithin(first, 0, |first| - 1, p, before[p]);
      Widen(first, history, t, p, before[p]);
      assert SignedWithin(history, t, |history| - 1, p, before[p]);
      SameAround(history, deletes, 0, t, p, before[p]);
    }
    forall i | 0 <= i < |order| && order[i] in before
      ensures Backed(history, decode, order[i], (before[order[i]], entries[i]))
    {
      assert order[i] in order;
    }
    assert |before| == |before.Keys|;
    OneEach(order, before.Keys);
    if !deletes {
      forall p | p in Names(history[t], KIND) ensures p in before.Keys {
        Stays(history, t, second, p);
      }
    }
    assert Names(history[t], KIND) == before.Keys <==> Listing(order, before.Keys) by {
      if Listing(order, before.Keys) {
        assert forall p :: p in Names(history[t], KIND) <==> p in before.Keys;
      }
    }
  }

  /**
    Deletions matter. A file that is created after the first scan of a snapshot and deleted before its last one is in
    the entries but in neither scan, so the scans agree and the snapshot is kept, for files that hold something else.
   */
  lemma DeletedFilesLinger(one: Path, two: Path)
    requires one != two && one.kind == KIND == two.kind
    ensures var decode: string -> Result<Entry> := document => Success(document);
            var only, both := map[one := Stored(1, "x")], map[one := Stored(1, "x"), two := Stored(2, "y")];
            var history := [only, both, only];
            && Evolves(history, true) && Names(history[0], KIND) == Names(history[2], KIND)
               && history[0][one] == history[2][one]
            && DecodedAt(history, decode, 1, [one, two], ["x", "y"])
            && forall order :: !DecodedAt(history, decode, 2, order, ["x", "y"])
  {
    var decode: string -> Result<Entry> := document => Success(document);
    var only, both := map[one := Stored(1, "x")], map[one := Stored(1, "x"), two := Stored(2, "y")];
    var history := [only, both, only];
    assert history[..1] == [only] && history[..2] == [only, both];
    assert Names(only, KIND) == {one} && Names(both, KIND) == {one, two};
    assert [one, two][0] == one && [one, two][1] == two;
    forall order ensures !DecodedAt(history, decode, 2, order, ["x", "y"]) {
      if |order| == 2 && order[0] != order[1] {
        var other := if order[0] == one then order[1] else order[0];
        assert other in order && other !in Names(only, KIND);
      }
    }
  }

  class HistoryCache {
    const directory: Directory
    const decode: string -> Result<Entry>
    var validated: map<Path, Cached>
    var session: Option<(map<Path, Signature>, seq<Entry>)>
    ghost var sessionOrder: seq<Path>

    ghost predicate Valid()
      reads this, directory
    {
      && directory.Valid() && AllBacked(directory.history, decode, validated)
      && (session.Some? ==>
            && Remembered(directory.history, decode, sessionOrder, session.value.0, session.value.1)
            && (!directory.deletes ==> |session.value.1| == |session.value.0|))
    }

    constructor (directory: Directory, decode: string -> Result<Entry>)
      requires directory.Valid()
      ensures Valid() && validated == map[] && session == None
      ensures this.directory == directory && this.decode == decode
    {
      this.directory, this.decode := directory, decode;
      validated, session, sessionOrder := map[], None, [];
    }

    /** One file of a scan: reuse an entry whose signature is unchanged, decode any other file again. */
    method FillOne(before: map<Path, Signature>, p: Path, ghost since: int) returns (r: Result<Entry>)
      requires directory.Valid() && p in before && 0 <= since < |directory.history|
      requires Tentative(directory.history, decode, since, before, validated)
      modifies `validated, directory
      ensures directory.Valid() && old(directory.history) <= directory.history
      ensures Tentative(directory.history, decode, since, before, validated)
      ensures r.Success? ==> validated == old(validated)[p := (before[p], r.value)]
      ensures r.Failure? ==> r.error in {"decision_context_not_found", "invalid_lineage_aggregate"}
    {
      if p in validated && validated[p].0 == before[p] {
        assert validated == validated[p := (before[p], validated[p].1)];
        return Success(validated[p].1);
      }
      ghost var past := directory.history;
      var reading := directory.Read(p);
      TentativeLater(past, directory.history, decode, since, before, validated);
      if !reading.Content? {
        return Failure("decision_context_not_found");
      }
      r := decode(reading.document);
      if r.Failure? {
        return Failure("invalid_lineage_aggregate");
      }
      TentativeEntry(directory.history, decode, since, before, validated, p, r.value);
      validated := validated[p := (before[p], r.value)];
    }

    /** The loop of a scan. */
    method Fill(before: map<Path, Signature>, order: seq<Path>) returns (r: Result<seq<Entry>>)
      requires directory.Valid() && AllBacked(directory.history, decode, validated) && Listing(order, before.Keys)
      requires directory.history != []
      modifies `validated, directory
      ensures directory.Valid() && old(directory.history) <= directory.history
      ensures Tentative(directory.history, decode, |old(directory.history)| - 1, before, validated)
      ensures r.Success? ==> Filled(validated, order, before, r.value)
      ensures r.Failure? ==> r.error in {"decision_context_not_found", "invalid_lineage_aggregate"}
    {
      ghost var since := |directory.history| - 1;
      assert Tentative(directory.history, decode, since, before, validated);
      var entries: seq<Entry> := [];
      assert Filled(validated, order[..0], before, entries);
      for n := 0 to |order|
        invariant directory.Valid() && old(directory.history) <= directory.history
        invariant Tentative(directory.history, decode, since, before, validated)
        invariant Filled(validated, order[..n], before, entries)
      {
        ghost var cache := validated;
        assert order[n] in before by { assert order[n] in order; }
        var entry := FillOne(before, order[n], since);
        if entry.Failure? {
          return Failure(entry.error);
        }
        FilledStep(cache, order, n, before, entries, entry.value);
        entries := entries + [entry.value];
      }
      assert order[..|order|] == order;
      r := Success(entries);
    }

    /** A scan, once its first signatures have been taken. */
    method Rescan(before: map<Path, Signature>)
      returns (r: Result<seq<Entry>>, ghost order: seq<Path>, ghost moment: int)
      requires directory.Valid() && AllBacked(directory.history, decode, validated)
      requires forall p :: p in before ==> SignedWithin(directory.history, 0, |directory.history| - 1, p, before[p])
      modifies `validated, directory
      ensures directory.Valid() && old(directory.history) <= directory.history
      ensures AllBacked(directory.history, decode, validated)
      ensures r.Success? ==> |old(directory.history)| - 1 <= moment
                             && DecodedAt(directory.history, decode, moment, order, r.value)
      ensures r.Failure? ==> validated == map[] && r.error != "unscanned"
    {
      var paths := InSomeOrder(before.Keys);
      order := paths;
      ghost var first := directory.history;
      assert first != [];
      var entries := Fill(before, paths);
      moment := |directory.history| - 1;
      if entries.Failure? {
        validated := map[];
        return entries, order, moment;
      }
      ghost var filled := directory.history;
      var after, second := directory.Signatures(KIND);
      moment := second;
      if after.Failure? || after.value != before {
        validated := map[];
        assert AllBacked(directory.history, decode, validated);
        return Failure(if after.Failure? then "io" else "decision_lineage_changed"), order, moment;
      }
      ScanIsDecoded(first, filled, directory.history, directory.deletes, decode, second, paths, before, validated,
                    entries.value);
      KeptIsBacked(directory.history, decode, validated, before.Keys);
      validated := map p | p in before.Keys && p in validated :: validated[p];
      r := entries;
    }

    /**
      `_validated_entries`: scan the signatures, reuse or decode file by file, scan again. Whenever it returns, its
      entries are the fresh decoding of every file present at one moment of the call, whatever was written
      meanwhile, even between taking a signature and reading that file. A first scan that fails leaves the cache as
      it was; any later failure clears it.
     */
    method ValidatedEntries() returns (r: Result<seq<Entry>>, ghost order: seq<Path>, ghost moment: int)
      requires Valid()
      modifies `validated, directory
      ensures Valid() && old(directory.history) <= directory.history
      ensures r.Success? ==> |old(directory.history)| - 1 <= moment
                             && DecodedAt(directory.history, decode, moment, order, r.value)
      ensures r.Failure? ==> validated == if r.error == "unscanned" then old(validated) else map[]
    {
      hide Evolves, Backed, SignedAt;
      moment, order := 0, [];
      var before, scanned := directory.Signatures(KIND);
      AllBackedLater(old(directory.history), directory.history, decode, validated);
      if session.Some? {
        RememberedLater(old(directory.history), directory.history, decode, sessionOrder, session.value.0,
                        session.value.1);
      }
      if before.Failure? {
        return Failure("unscanned"), order, moment;
      }
      ghost var scan := directory.history;
      r, order, moment := Rescan(before.value);
      if session.Some? {
        RememberedLater(scan, directory.history, decode, sessionOrder, session.value.0, session.value.1);
      }
    }

    /** The same files with the same signatures were found by a scan that began at this moment. */
    ghost predicate FoundAgain(moment: int)
      reads this, directory
    {
      && session.Some? && 0 <= moment < |directory.history|
         && session.value.0.Keys == Names(directory.history[moment], KIND)
      && forall p :: p in session.value.0 ==>
           SignedWithin(directory.history, moment, |directory.history| - 1, p, session.value.0[p])
    }

    /**
      `session_read_snapshot`: reuse the last snapshot while the signatures of every file are what they were. A new
      snapshot is the fresh decoding of one moment of this call. A reused one is so at the scan that found its
      signatures again, if and only if it has as many entries as signatures, as it always has where files are only
      created or replaced. A failed first scan leaves the session as it was; any later failure leaves none.
     */
    method SessionReadSnapshot() returns (r: Result<seq<Entry>>, ghost order: seq<Path>, ghost moment: int)
      requires Valid()
      modifies this, directory
      ensures Valid() && old(directory.history) <= directory.history
      ensures r.Success? ==> session.Some? && session.value.1 == r.value && |old(directory.history)| - 1 <= moment
      ensures r.Success? && session != old(session) ==> DecodedAt(directory.history, decode, moment, order, r.value)
      ensures r.Success? && session == old(session) ==>
                FoundAgain(moment) && (Decoded(directory.history, decode, moment, r.value) <==>
                                       |r.value| == |session.value.0|)
      ensures r.Success? && !directory.deletes ==> DecodedAt(directory.history, decode, moment, order, r.value)
      ensures r.Failure? ==> session == if r.error == "unscanned" then old(session) else None
    {
      hide Evolves, DecodedAt, Remembered, AllBacked, Decoded;
      ghost var past := directory.history;
      order, moment := sessionOrder, 0;
      var before, scanned := directory.Signatures(KIND);
      AllBackedLater(past, directory.history, decode, validated);
      if session.Some? {
        RememberedLater(past, directory.history, decode, sessionOrder, session.value.0, session.value.1);
      }
      if before.Failure? {
        return Failure("unscanned"), order, moment;
      }
      moment := scanned;
      if session.Some? && session.value.0 == before.value {
        RememberedIsDecoded(past, directory.history, directory.deletes, decode, scanned, sessionOrder, before.value,
                            session.value.1);
        return Success(session.value.1), order, moment;
      }
      session := None;
      r, order, moment := Renew(before.value, scanned);
    }

    /** A new snapshot for the signatures of a scan. */
    method Renew(before: map<Path, Signature>, ghost scanned: nat)
      returns (r: Result<seq<Entry>>, ghost order: seq<Path>, ghost moment: int)
      requires Valid() && session == None && scanned < |directory.history|
               && before.Keys == Names(directory.history[scanned], KIND)
      requires forall p :: p in before ==>
                 SignedWithin(directory.history, scanned, |directory.history| - 1, p, before[p])
      modifies this, directory
      ensures Valid() && old(directory.history) <= directory.history
      ensures r.Success? ==> session == Some((before, r.value)) && |old(directory.history)| - 1 <= moment
                             && DecodedAt(directory.history, decode, moment, order, r.value)
      ensures r.Failure? ==> session == None && r.error != "unscanned"
    {
      hide Evolves, DecodedAt, Remembered, AllBacked;
      ghost var first := directory.history;
      r, order, moment := ValidatedEntries();
      if r.Failure? {
        r := Failure("decision_lineage_unreadable");
        return;
      }
      ghost var loaded := directory.history;
      var after, second := directory.Signatures(KIND);
      AllBackedLater(loaded, directory.history, decode, validated);
      DecodedLater(loaded, directory.history, decode, moment, order, r.value);
      if after.Failure? || after.value != before {
        r := Failure(if after.Failure? then "io" else "decision_lineage_changed");
        return;
      }
      DecodedWithin(loaded, decode, moment, order, r.value);
      SnapshotIsRemembered(first, directory.history, directory.deletes, decode, scanned, moment, second, order, before,
                           r.value);
      session, sessionOrder := Some((before, r.value)), order;
    }
  }
}
