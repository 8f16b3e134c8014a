/**
  A directory of documents that other processes write while it is being read. Every state it ever had is kept in
  a history. Writers replace whole files, and each write gives its file a signature (identity, size and change
  times) that the file never had before; between any two steps of a reader they may do so any number of times.
 */
module SharedDirectory {
  import opened Wrappers

  /** The kinds of documents, each in its own sub-directory. */
  datatype Kind = Evaluations | Observations | Evidence | Executions | Decisions

  datatype Path = Path(kind: Kind, name: string)

  type Signature = nat

  datatype Stored = Stored(signature: Signature, document: string)

  type Files = map<Path, Stored>

  predicate Unseen(history: seq<Files>, p: Path, signature: Signature) {
    forall i | 0 <= i < |history| :: p in history[i] ==> history[i][p].signature != signature
  }

  /** One write step: each file is as it was, or carries a signature it never had. */
  predicate Follows(history: seq<Files>, next: Files, deletes: bool)
    requires history != []
  {
    var last := history[|history| - 1];
    && (forall p | p in next :: (p in last && next[p] == last[p]) || Unseen(history, p, next[p].signature))
    && (deletes || forall p | p in last :: p in next)
  }

  ghost predicate Evolves(history: seq<Files>, deletes: bool) {
    history != [] && forall k :: 0 < k < |history| ==> Follows(history[..k], history[k], deletes)
  }

  ghost predicate SignedAt(history: seq<Files>, t: int, p: Path, signature: Signature) {
    0 <= t < |history| && p in history[t] && history[t][p].signature == signature
  }

  ghost predicate SignedWithin(history: seq<Files>, low: int, high: int, p: Path, signature: Signature) {
    exists t :: low <= t <= high && SignedAt(history, t, p, signature)
  }

  /** A signature seen at two moments means that the file did not change in between. */
  lemma {:induction false} Constant(history: seq<Files>, deletes: bool, i: nat, j: nat, k: nat, p: Path,
                                    signature: Signature)
    requires Evolves(history, deletes) && i <= j <= k
    requires SignedAt(history, i, p, signature) && SignedAt(history, k, p, signature)
    ensures SignedAt(history, j, p, signature) && history[j][p] == history[i][p]
    decreases k
  {
    if i < k {
      assert Follows(history[..k], history[k], deletes);
      assert history[..k][i] == history[i];
      assert history[..k][k - 1] == history[k - 1];
      assert !Unseen(history[..k], p, signature);
      if j < k {
        Constant(history, deletes, i, j, k - 1, p, signature);
      } else {
        Constant(history, deletes, i, k - 1, k - 1, p, signature);
      }
    }
  }

  lemma SignatureNamesDocument(history: seq<Files>, deletes: bool, i: nat, k: nat, p: Path, signature: Signature)
    requires Evolves(history, deletes)
    requires SignedAt(history, i, p, signature) && SignedAt(history, k, p, signature)
    ensures history[i][p] == history[k][p]
  {
    if i <= k {
      Constant(history, deletes, i, k, k, p, signature);
    } else {
      Constant(history, deletes, k, i, i, p, signature);
    }
  }

  /** Without deletions a file once present stays present. */
  lemma {:induction false} Stays(history: seq<Files>, i: nat, k: nat, p: Path)
    requires Evolves(history, false) && i <= k < |history| && p in history[i]
    ensures p in history[k]
    decreases k
  {
    if i < k {
      Stays(history, i, k - 1, p);
      assert Follows(history[..k], history[k], false);
      assert history[..k][k - 1] == history[k - 1];
    }
  }

  /** Signatures seen before and after a moment are the signatures, and fix the documents, of that moment. */
  lemma SameAround(history: seq<Files>, deletes: bool, low: nat, mid: nat, p: Path, signature: Signature)
    requires Evolves(history, deletes) && mid < |history|
    requires SignedWithin(history, low, mid, p, signature) && SignedWithin(history, mid, |history| - 1, p, signature)
    ensures SignedAt(history, mid, p, signature)
  {
    var i :| low <= i <= mid && SignedAt(history, i, p, signature);
    var k :| mid <= k <= |history| - 1 && SignedAt(history, k, p, signature);
    Constant(history, deletes, i, mid, k, p, signature);
  }

  lemma SignedLater(before: seq<Files>, after: seq<Files>, low: int, p: Path, signature: Signature)
    requires before <= after
    ensures forall t :: SignedAt(before, t, p, signature) ==> SignedAt(after, t, p, signature)
    ensures SignedWithin(before, low, |before| - 1, p, signature) ==>
              SignedWithin(after, low, |before| - 1, p, signature)
    ensures SignedWithin(before, low, |before| - 1, p, signature) ==>
              SignedWithin(after, low, |after| - 1, p, signature)
  {
    assert forall t :: SignedAt(before, t, p, signature) ==> SignedAt(after, t, p, signature);
  }

  function Names(files: Files, kind: Kind): set<Path> {
    set p | p in files && p.kind == kind
  }

  datatype Reading = Content(document: string, signature: Signature) | Missing | Unreadable

  class Directory {
    // whether others delete files, and the files whose examination may fail although they are there
    const deletes: bool
    const blind: set<Path>
    var history: seq<Files>

    ghost predicate Valid()
      reads this
    {
      Evolves(history, deletes)
    }

    constructor (files: Files, deletes: bool, blind: set<Path>)
      ensures Valid() && history == [files] && this.deletes == deletes && this.blind == blind
    {
      history, this.deletes, this.blind := [files], deletes, blind;
    }

    lemma Recorded()
      requires Valid()
      ensures Evolves(history, deletes) && history != []
    {
    }

    function Now(): Files
      requires history != []
      reads this
    {
      history[|history| - 1]
    }

    /** Any number of writes by others. */
    method Interfere()
      requires Valid()
      modifies this
      ensures Valid() && old(history) <= history
    {
      var writes :| 0 <= writes;
      for i := 0 to writes
        invariant Valid() && old(history) <= history
      {
        var next: Files := *;
        if Follows(history, next, deletes) {
          ghost var before := history;
          history := history + [next];
          forall k | 0 < k < |history| ensures Follows(history[..k], history[k], deletes) {
            assert history[..k] == before[..k];
          }
        }
      }
    }

    /** Enumerate one kind of document. */
    method List(kind: Kind) returns (names: set<Path>)
      requires Valid()
      modifies this
      ensures Valid() && old(history) <= history
      ensures names == Names(Now(), kind)
    {
      Interfere();
      names := Names(Now(), kind);
    }

    /** The signature of a file; None when it is gone or cannot be examined. */
    method Stat(p: Path) returns (r: Option<Signature>)
      requires Valid()
      modifies this
      ensures Valid() && old(history) <= history
      ensures r.Some? ==> SignedAt(history, |history| - 1, p, r.value)
      ensures r.None? ==> p in blind || p !in Now()
    {
      Interfere();
      var usable: bool := *;
      r := if (usable || p !in blind) && p in Now() then Some(Now()[p].signature) else None;
    }

    /** The whole document: a replaced file keeps its old content for whoever has it open. */
    method Read(p: Path) returns (r: Reading)
      requires Valid()
      modifies this
      ensures Valid() && old(history) <= history
      ensures r.Content? ==> p in Now() && Now()[p] == Stored(r.signature, r.document)
      ensures r.Missing? ==> p !in Now()
    {
      Interfere();
      var usable: bool := *;
      r := if !usable then Unreadable else if p in Now() then Content(Now()[p].document, Now()[p].signature)
          else Missing;
    }

    /** Enumerate, then examine file by file: not one moment, but every signature is seen after the enumeration. */
    method Signatures(kind: Kind) returns (r: Result<map<Path, Signature>>, ghost scanned: nat)
      requires Valid()
      modifies this
      ensures Valid() && old(history) <= history && |old(history)| - 1 <= scanned < |history|
      ensures r.Success? ==> r.value.Keys == Names(history[scanned], kind)
      ensures r.Success? ==> forall p :: p in r.value ==> SignedWithin(history, scanned, |history| - 1, p, r.value[p])
    {
      var names := List(kind);
      scanned := |history| - 1;
      ghost var atScan := history[scanned];
      var result: map<Path, Signature> := map[];
      var rest := names;
      while rest != {}
        invariant Valid() && old(history) <= history && scanned < |history| && history[scanned] == atScan
        invariant rest <= names && result.Keys == names - rest
        invariant forall p :: p in result ==> SignedWithin(history, scanned, |history| - 1, p, result[p])
        decreases |rest|
      {
        ghost var before := history;
        var p :| p in rest;
        var signature := Stat(p);
        forall q | q in result ensures SignedWithin(history, scanned, |history| - 1, q, result[q]) {
          SignedLater(before, history, scanned, q, result[q]);
        }
        if signature.None? {
          return Failure("stat"), scanned;
        }
        rest := rest - {p};
        result := result[p := signature.value];
      }
      r := Success(result);
    }
  }
}
