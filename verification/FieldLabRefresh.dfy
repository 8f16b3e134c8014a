/** When a refresh of an index, which reuses the rows of a base, publishes what a forced rebuild would. */
module FieldLabRefresh {
  import opened Wrappers
  import opened Bytes
  import opened FieldLabArtifacts
  import opened FieldLabIndex
  import opened FieldLabTables
  import opened FieldLabBuild

  /** What a build publishes from a base, or from none. */
  ghost function Published(c: Codec, files: map<nat, File>, base: Option<Generation>,
                           maxNames: nat): Option<Generation> {
    if BaseReusable(c, files, base, maxNames) && BuildableFrom(c, files, Reused(c, files, base, maxNames), maxNames)
    then Some(Tables(c, BuiltRows(c, files, Reused(c, files, base, maxNames))))
    else None
  }

  /** A refresh from a base and a forced rebuild of one inventory. */
  method BuildBoth(c: Codec, files: map<nat, File>, base: Generation, maxNames: nat)
    returns (refreshed: Option<Generation>, rebuilt: Option<Generation>)
    requires c.Valid()
    ensures refreshed == Published(c, files, Some(base), maxNames) && rebuilt == Published(c, files, None, maxNames)
  {
    hide Tables, Accepted, Indexable, Reusable, BuildableFrom, Reused;
    refreshed := Build(c, files, Some(base), false, maxNames);
    rebuilt := Build(c, files, Some(base), true, maxNames);
  }

  /** The row is the metadata of its artifact. */
  ghost predicate RowAgrees(c: Codec, files: map<nat, File>, m: Metadata) {
    EnvelopeOf(c, files, c.sha(m.key)) == Some(m)
  }

  /** What a base stores of artifacts, apart from the outdated rows that a build replaces. */
  ghost predicate Truthful(c: Codec, files: map<nat, File>, g: Generation, maxNames: nat)
    requires Reusable(c, files, g, maxNames)
  {
    forall m :: m in ParseRows(c, Keys(g), g.rows).value && !Outdated(m) ==> RowAgrees(c, files, m)
  }

  /** A row that is replaced agrees with its artifact in any case, and any other is reused as it is stored. */
  lemma ReusedRow(c: Codec, files: map<nat, File>, g: Generation, maxNames: nat, i: nat)
    requires Reusable(c, files, g, maxNames) && i < |BaseRows(c, files, g, maxNames)|
    ensures var stored, rows := ParseRows(c, Keys(g), g.rows).value, BaseRows(c, files, g, maxNames);
            && i < |stored| && rows[i].key == stored[i].key && (!Outdated(stored[i]) ==> rows[i] == stored[i])
            && (Outdated(stored[i]) ==> EnvelopeOf(c, files, c.sha(stored[i].key)) == Some(rows[i]))
  {
    var stored := ParseRows(c, Keys(g), g.rows).value;
    assert stored[i] in stored;
    hide ParseRows, Keys, BaseUsable, EnvelopeOf;
  }

  /** What is reused agrees with the artifacts if every single row does. */
  lemma AgreeingByRow(c: Codec, files: map<nat, File>, g: Generation, maxNames: nat)
    requires Reusable(c, files, g, maxNames)
    ensures var rows := BaseRows(c, files, g, maxNames);
            Agreeing(c, files, Reused(c, files, Some(g), maxNames)) <==>
                  forall i :: 0 <= i < |rows| ==> RowAgrees(c, files, rows[i])
  {
    var rows, known := BaseRows(c, files, g, maxNames), Reused(c, files, Some(g), maxNames);
    ReusedIsDrawn(c, files, g, maxNames);
    hide Reusable, BaseRows, EnvelopeOf, Reused;
    forall i | 0 <= i < |rows| ensures c.sha(rows[i].key) in known && known[c.sha(rows[i].key)] == rows[i] {
      assert NameKeys(c, rows)[i] in NameKeys(c, rows);
    }
    forall n | n in known ensures exists i :: 0 <= i < |rows| && c.sha(rows[i].key) == n {
      assert n in NameKeys(c, rows);
    }
  }

  /** Row by row, what is reused agrees exactly where what is stored does or is outdated. */
  lemma RowsAgree(c: Codec, files: map<nat, File>, stored: seq<Metadata>, rows: seq<Metadata>)
    requires |stored| == |rows|
    requires forall i :: 0 <= i < |rows| ==> if Outdated(stored[i]) then RowAgrees(c, files, rows[i])
             else rows[i] == stored[i]
    ensures (forall m :: m in stored && !Outdated(m) ==> RowAgrees(c, files, m)) <==>
              forall i :: 0 <= i < |rows| ==> RowAgrees(c, files, rows[i])
  {
    hide RowAgrees, Outdated;
    if forall m :: m in stored && !Outdated(m) ==> RowAgrees(c, files, m) {
      forall i | 0 <= i < |rows| ensures RowAgrees(c, files, rows[i]) {
        assert stored[i] in stored;
      }
    }
  }

  /** The rows that a build replaces agree with their artifacts in any case, so the others decide. */
  lemma TruthfulReuseAgrees(c: Codec, files: map<nat, File>, g: Generation, maxNames: nat)
    requires Reusable(c, files, g, maxNames)
    ensures Truthful(c, files, g, maxNames) <==> Agreeing(c, files, Reused(c, files, Some(g), maxNames))
  {
    AgreeingByRow(c, files, g, maxNames);
    var stored, rows := ParseRows(c, Keys(g), g.rows).value, BaseRows(c, files, g, maxNames);
    assert |stored| == |rows|;
    hide Reusable, BaseRows, EnvelopeOf, Agreeing, Reused, ParseRows, Keys;
    forall i | 0 <= i < |rows|
      ensures if Outdated(stored[i]) then RowAgrees(c, files, rows[i]) else rows[i] == stored[i]
    {
      ReusedRow(c, files, g, maxNames, i);
    }
    RowsAgree(c, files, stored, rows);
  }

  lemma NothingIsReused(c: Codec, files: map<nat, File>, maxNames: nat)
    ensures BaseReusable(c, files, None, maxNames) && Reused(c, files, None, maxNames) == map[]
    ensures Agreeing(c, files, map[]) && HaveRuns(map[])
  {
  }

  /**
    When a refresh is a rebuild. If either of them publishes, both publish the same if and only if every row that the
    base stores and that is not outdated is the metadata of its artifact.
   */
  lemma RefreshIsRebuild(c: Codec, files: map<nat, File>, g: Generation, maxNames: nat)
    requires c.Valid() && Reusable(c, files, g, maxNames)
    ensures var refreshed, rebuilt := Published(c, files, Some(g), maxNames), Published(c, files, None, maxNames);
            refreshed.Some? || rebuilt.Some? ==> (refreshed == rebuilt <==> Truthful(c, files, g, maxNames))
  {
    var known := Reused(c, files, Some(g), maxNames);
    TruthfulReuseAgrees(c, files, g, maxNames);
    NothingIsReused(c, files, maxNames);
    SameBuild(c, files, map[], maxNames);
    if Agreeing(c, files, known) {
      SameBuild(c, files, known, maxNames);
    }
    var refreshed, rebuilt := Published(c, files, Some(g), maxNames), Published(c, files, None, maxNames);
    if refreshed.Some? && refreshed == rebuilt {
      ReusedIsDrawn(c, files, g, maxNames);
      ReusedHaveRuns(c, files, Some(g), maxNames);
      BuiltIndexable(c, files, known);
      BuiltIndexable(c, files, map[]);
      SameTables(c, files, known);
    }
  }

  /**
    A base that lies. One artifact, and a base whose only row differs from its envelope in a fact: the base is accepted
    and complete, both builds publish, and what they publish differs.
   */
  method LyingBase(c: Codec, a: Artifact, facts: string, base: Generation, maxNames: nat)
    returns (refreshed: Option<Generation>, rebuilt: Option<Generation>)
    requires c.Valid() && facts != a.facts && maxNames >= 1 && base == Tables(c, [c.MetadataOf(a).(facts := facts)])
    requires |Line(c, c.MetadataOf(a))| <= MAX_ROW && |Line(c, c.MetadataOf(a).(facts := facts))| <= MAX_ROW
    ensures refreshed.Some? && rebuilt.Some? && refreshed != rebuilt
  {
    hide Tables, Line, Published;
    var files := map[c.sha(a.key) := Envelope(a)];
    LieIsTold(c, a, c.MetadataOf(a).(facts := facts), maxNames);
    refreshed, rebuilt := BuildBoth(c, files, base, maxNames);
  }

  lemma LieIsTold(c: Codec, a: Artifact, m: Metadata, maxNames: nat)
    requires c.Valid() && maxNames >= 1 && m.key == a.key && m != c.MetadataOf(a) && !Outdated(m)
             && |Line(c, m)| <= MAX_ROW
    requires |Line(c, c.MetadataOf(a))| <= MAX_ROW
    ensures var files, g := map[c.sha(a.key) := Envelope(a)], Tables(c, [m]);
            var refreshed, rebuilt := Published(c, files, Some(g), maxNames), Published(c, files, None, maxNames);
            refreshed.Some? && rebuilt.Some? && refreshed != rebuilt
  {
    hide *;
    LieIsReusable(c, a, m, maxNames);
    LieIsPublished(c, a, m, maxNames);
    RefreshIsRebuild(c, map[c.sha(a.key) := Envelope(a)], Tables(c, [m]), maxNames);
  }

  lemma OneRow(c: Codec, m: Metadata)
    requires |Line(c, m)| <= MAX_ROW && (m.kind.Related() ==> m.run.Some?)
    ensures Indexable(c, [m]) && NameKeys(c, [m]) == [c.sha(m.key)]
  {
    assert [m][..0] == [];
    assert RowBytes(c, [m]) == Line(c, m);
  }

  lemma LieIsReusable(c: Codec, a: Artifact, m: Metadata, maxNames: nat)
    requires c.Valid() && maxNames >= 1 && m.key == a.key && m != c.MetadataOf(a) && !Outdated(m)
             && |Line(c, m)| <= MAX_ROW
    ensures var files, g := map[c.sha(a.key) := Envelope(a)], Tables(c, [m]);
            && Reusable(c, files, g, maxNames) && !Truthful(c, files, g, maxNames)
            && Reused(c, files, Some(g), maxNames) == map[c.sha(a.key) := m]
  {
    OneRow(c, m);
    TablesAccepted(c, [m], maxNames);
    TableRows(c, [m]);
    assert m in [m];
  }

  lemma LieIsPublished(c: Codec, a: Artifact, m: Metadata, maxNames: nat)
    requires c.Valid() && maxNames >= 1 && m.key == a.key && m != c.MetadataOf(a) && !Outdated(m)
             && |Line(c, m)| <= MAX_ROW
    requires |Line(c, c.MetadataOf(a))| <= MAX_ROW
    ensures var files, g := map[c.sha(a.key) := Envelope(a)], Tables(c, [m]);
            && Published(c, files, Some(g), maxNames).Some? && Published(c, files, None, maxNames).Some?
  {
    var n := c.sha(a.key);
    var files, g := map[n := Envelope(a)], Tables(c, [m]);
    LieIsReusable(c, a, m, maxNames);
    NothingIsReused(c, files, maxNames);
    LieIsRead(c, a, m);
    hide Tables, Reusable, Reused, BuildableFrom, Truthful, Readable, RowFor, BuiltRows, Indexable, BaseReusable;
    assert BaseReusable(c, files, Some(g), maxNames) by { ReusableBase(c, files, g, maxNames); }
    OneIsBuilt(c, files, map[n := m], n, m, maxNames);
    OneIsBuilt(c, files, map[], n, c.MetadataOf(a), maxNames);
  }

  lemma ReusableBase(c: Codec, files: map<nat, File>, g: Generation, maxNames: nat)
    requires Reusable(c, files, g, maxNames)
    ensures BaseReusable(c, files, Some(g), maxNames)
  {
  }

  lemma LieIsRead(c: Codec, a: Artifact, m: Metadata)
    requires m.key == a.key
    ensures var n := c.sha(a.key);
            var files := map[n := Envelope(a)];
            && Readable(c, files, map[n := m]) && RowFor(c, files, map[n := m], n) == Some(m)
            && Readable(c, files, map[]) && RowFor(c, files, map[], n) == Some(c.MetadataOf(a))
  {
  }

  /** A build over one artifact whose row fits. */
  lemma OneIsBuilt(c: Codec, files: map<nat, File>, known: map<nat, Metadata>, n: nat, m: Metadata, maxNames: nat)
    requires files.Keys == {n} && Readable(c, files, known) && RowFor(c, files, known, n) == Some(m)
    requires maxNames >= 1 && |Line(c, m)| <= MAX_ROW
    ensures BuildableFrom(c, files, known, maxNames)
  {
    assert |files| == |files.Keys| == 1;
    var rows := BuiltRows(c, files, known);
    BuiltRowAt(c, files, known, 0);
    assert rows == [m] && rows[..0] == [];
    assert RowBytes(c, rows) == Line(c, m);
  }
}
