/** Immutable Field Lab artifacts and the metadata derived from them. */
module FieldLabArtifacts {
  import opened Wrappers
  import opened Bytes

  type Digest = n: nat | n < Pow256(32)

  const NEWLINE: byte := 10

  datatype Kind = Comparison | ComparisonState | Other(tag: string) {
    /** Kinds that belong to one forecast run. */
    predicate Related() {
      Comparison? || ComparisonState?
    }
  }

  /** `facts` stands for the fields the index copies without looking at them. */
  datatype Artifact = Artifact(kind: Kind, key: string, facts: string, run: string,
                               timeMin: int, timeMax: int, payload: string)

  /** `run` is absent for unrelated kinds and in rows written before the field existed. */
  datatype Metadata = Metadata(kind: Kind, key: string, facts: string, run: Option<string>,
                               timeMin: int, timeMax: int, digest: Digest)

  /** What a directory entry decodes to; `Corrupt` is any document the decoder refuses. */
  datatype File = Corrupt | Envelope(artifact: Artifact)

  /** The hash and the JSON functions, which this model does not interpret. */
  datatype Codec = Codec(sha: string -> Digest, fileSha: seq<byte> -> Digest, size: Artifact -> nat,
                         encode: Metadata -> seq<byte>, decode: seq<byte> -> Option<Metadata>) {
    ghost predicate Valid() {
      forall m :: decode(encode(m) + [NEWLINE]) == Some(m) && NEWLINE !in encode(m)
    }

    function MetadataOf(a: Artifact): (m: Metadata) {
      Metadata(a.kind, a.key, a.facts, if a.kind.Related() then Some(a.run) else None,
               a.timeMin, a.timeMax, sha(a.payload))
    }

    /** The file called `name` holds the artifact whose key hashes to that name. */
    predicate Faithful(name: nat, file: File) {
      file.Envelope? && sha(file.artifact.key) == name
    }

    ghost predicate FaithfulInventory(files: map<nat, File>) {
      forall name :: name in files ==> Faithful(name, files[name])
    }

    /** `m` describes `a`, possibly without the later `run` field. */
    predicate Matches(a: Artifact, m: Metadata) {
      m == MetadataOf(a) || m == MetadataOf(a).(run := None)
    }
  }
}

/** Stored index generations: what a build writes, what a reader checks, and how tables are searched. */
module FieldLabIndex {
  import opened Wrappers
  import opened Bytes
  import opened Merging
  import opened FieldLabArtifacts

  const MAX_COUNT: nat := 2_000_000
  const MAX_BYTES: nat := 2_147_483_648
  const MAX_ROW: nat := 16_384

  datatype Manifest = Manifest(version: int, count: int, rowsBytes: int, relatedCount: int,
                               namesSha: Digest, rowsSha: Digest, offsetsSha: Digest, relationsSha: Digest)

  /** The five files of one generation; version 1 has no offsets and no relations. */
  datatype Generation = Generation(manifest: Manifest, names: seq<byte>, rows: seq<byte>,
                                   offsets: seq<byte>, relations: seq<byte>)

  // ---- the tables that describe a sequence of rows ----

  function Line(c: Codec, m: Metadata): (line: seq<byte>)
    ensures line != []
  {
    c.encode(m) + [NEWLINE]
  }

  function RowBytes(c: Codec, rows: seq<Metadata>): (b: seq<byte>) {
    if rows == [] then [] else RowBytes(c, rows[..|rows| - 1]) + Line(c, rows[|rows| - 1])
  }

  function NameKeys(c: Codec, rows: seq<Metadata>): (keys: seq<nat>)
    ensures |keys| == |rows|
  {
    seq<nat>(|rows|, i requires 0 <= i < |rows| => c.sha(rows[i].key))
  }

  function OffsetRecords(c: Codec, rows: seq<Metadata>): (records: seq<nat>)
    ensures |records| == |rows|
  {
    seq<nat>(|rows|, i requires 0 <= i < |rows| => Join(|RowBytes(c, rows[..i])|, |Line(c, rows[i])|))
  }

  predicate IsRelatedRow(m: Metadata) {
    m.kind.Related() && m.run.Some?
  }

  /** The relation record of row `i`: the hash of its run, then the row number. */
  function RelationKey(c: Codec, rows: seq<Metadata>, i: nat): (record: nat)
    requires i < |rows| && IsRelatedRow(rows[i])
  {
    Join(c.sha(rows[i].run.value), i)
  }

  ghost function RelationSet(c: Codec, rows: seq<Metadata>): (records: set<nat>) {
    set i | 0 <= i < |rows| && IsRelatedRow(rows[i]) :: RelationKey(c, rows, i)
  }

  ghost function Tables(c: Codec, rows: seq<Metadata>): (g: Generation) {
    var names, bytes := Pack(NameKeys(c, rows), 32), RowBytes(c, rows);
    var offsets, relations := Pack(OffsetRecords(c, rows), 12), Pack(SortedKeys(RelationSet(c, rows)), 36);
    Generation(Manifest(2, |rows|, |bytes|, |RelationSet(c, rows)|,
                        c.fileSha(names), c.fileSha(bytes), c.fileSha(offsets), c.fileSha(relations)),
               names, bytes, offsets, relations)
  }

  /** The metadata of a whole inventory, in name order. */
  ghost function InventoryRows(c: Codec, files: map<nat, File>): (rows: seq<Metadata>)
    requires c.FaithfulInventory(files)
    ensures |rows| == |files|
    ensures NameKeys(c, rows) == SortedKeys(files.Keys)
  {
    var names := SortedKeys(files.Keys);
    assert |files| == |files.Keys|;
    assert forall i :: 0 <= i < |names| ==> names[i] in names;
    seq(|names|, i requires 0 <= i < |names| => c.MetadataOf(files[names[i]].artifact))
  }

  /** Rows small enough to be indexed, in strict name order, each related row with its run. */
  ghost predicate Indexable(c: Codec, rows: seq<Metadata>) {
    && |rows| <= MAX_COUNT
    && StrictlyIncreasing(NameKeys(c, rows))
    && (forall i :: 0 <= i < |rows| ==> |Line(c, rows[i])| <= MAX_ROW)
    && (forall i :: 0 <= i < |rows| ==> rows[i].kind.Related() ==> rows[i].run.Some?)
    && |RowBytes(c, rows)| <= MAX_BYTES
  }

  // ---- opening a stored generation ----

  predicate SizedAs(c: Codec, table: seq<byte>, size: int, sum: Digest) {
    0 <= size <= MAX_BYTES && |table| == size && c.fileSha(table) == sum
  }

  predicate AscendsAt(table: seq<byte>, width: nat, i: nat) {
    (i + 1) * width <= |table| && (i + 2) * width <= |table|
    && RecordAt(table, width, i) < RecordAt(table, width, i + 1)
  }

  ghost predicate Ascending(table: seq<byte>, width: nat, count: nat) {
    forall i :: 0 <= i < count - 1 ==> AscendsAt(table, width, i)
  }

  /** Where the row before row `i` ends. */
  function EndBefore(offsets: seq<byte>, i: nat): (end: nat)
    requires i * 12 <= |offsets|
  {
    if i == 0 then 0 else HighField(offsets, 12, i - 1) + LowField(offsets, 12, i - 1)
  }

  predicate OffsetFits(offsets: seq<byte>, i: nat) {
    (i + 1) * 12 <= |offsets|
    && HighField(offsets, 12, i) == EndBefore(offsets, i) && 0 < LowField(offsets, 12, i) <= MAX_ROW
  }

  ghost predicate OffsetsContiguous(offsets: seq<byte>, count: nat, total: int)
    requires |offsets| == count * 12
  {
    (forall i :: 0 <= i < count ==> OffsetFits(offsets, i)) && total == EndBefore(offsets, count)
  }

  ghost predicate RelationsOrdered(relations: seq<byte>, related: nat, count: nat)
    requires |relations| == related * 36
  {
    && Ascending(relations, 36, related)
    && (forall i :: 0 <= i < related ==> LowField(relations, 36, i) < count)
  }

  /** Everything a reader insists on before it trusts a stored generation. */
  ghost predicate Accepted(c: Codec, g: Generation, maxNames: nat) {
    var m := g.manifest;
    && m.version in {1, 2} && 0 <= m.count <= MAX_COUNT && m.count <= maxNames
    && SizedAs(c, g.names, m.count * 32, m.namesSha)
    && SizedAs(c, g.rows, m.rowsBytes, m.rowsSha)
    && Ascending(g.names, 32, m.count)
    && (m.version == 2 ==>
          && 0 <= m.relatedCount <= m.count
          && SizedAs(c, g.offsets, m.count * 12, m.offsetsSha)
          && SizedAs(c, g.relations, m.relatedCount * 36, m.relationsSha)
          && OffsetsContiguous(g.offsets, m.count, m.rowsBytes)
          && RelationsOrdered(g.relations, m.relatedCount, m.count))
  }

  method RecordsAscend(table: seq<byte>, width: nat, count: nat) returns (ok: bool)
    requires |table| == count * width
    ensures ok <==> Ascending(table, width, count)
  {
    var previous: seq<byte> := [];
    for i := 0 to count
      invariant i > 0 ==> i * width <= |table| && (i - 1) * width + width == i * width
      invariant i > 0 ==> previous == table[(i - 1) * width..i * width]
      invariant Ascending(table, width, i)
    {
      RecordBounds(i, count, width);
      var key := table[i * width..(i + 1) * width];
      if i > 0 {
        LexLessIsNumericOrder(previous, key);
        assert RecordAt(table, width, i - 1) == FromBigEndian(previous);
        assert RecordAt(table, width, i) == FromBigEndian(key);
        assert LexLess(previous, key) <==> AscendsAt(table, width, i - 1);
        if !LexLess(previous, key) {
          return false;
        }
      }
      previous := key;
    }
    ok := true;
  }

  method CheckOffsets(offsets: seq<byte>, count: nat, total: int) returns (ok: bool)
    requires |offsets| == count * 12
    ensures ok <==> OffsetsContiguous(offsets, count, total)
  {
    var end := 0;
    for i := 0 to count
      invariant end == EndBefore(offsets, i)
      invariant forall k :: 0 <= k < i ==> OffsetFits(offsets, k)
    {
      var offset, length := HighField(offsets, 12, i), LowField(offsets, 12, i);
      assert OffsetFits(offsets, i) <==> offset == end && 0 < length <= MAX_ROW;
      if offset != end || !(0 < length <= MAX_ROW) {
        return false;
      }
      end := end + length;
    }
    ok := end == total;
  }

  method CheckRelations(relations: seq<byte>, related: nat, count: nat) returns (ok: bool)
    requires |relations| == related * 36
    ensures ok <==> RelationsOrdered(relations, related, count)
  {
    ok := RecordsAscend(relations, 36, related);
    if ok {
      for i := 0 to related
        invariant forall k :: 0 <= k < i ==> LowField(relations, 36, k) < count
      {
        if LowField(relations, 36, i) >= count {
          return false;
        }
      }
    }
  }

  method Open(c: Codec, g: Generation, maxNames: nat) returns (ok: bool)
    ensures ok <==> Accepted(c, g, maxNames)
  {
    var m := g.manifest;
    if m.version !in {1, 2} || !(0 <= m.count <= MAX_COUNT) || m.count > maxNames {
      return false;
    }
    if m.version == 2 && !(0 <= m.relatedCount <= m.count) {
      return false;
    }
    if !SizedAs(c, g.names, m.count * 32, m.namesSha) || !SizedAs(c, g.rows, m.rowsBytes, m.rowsSha) {
      return false;
    }
    if m.version == 2 && (!SizedAs(c, g.offsets, m.count * 12, m.offsetsSha)
                          || !SizedAs(c, g.relations, m.relatedCount * 36, m.relationsSha)) {
      return false;
    }
    ok := RecordsAscend(g.names, 32, m.count);
    if ok && m.version == 2 {
      ok := CheckOffsets(g.offsets, m.count, m.rowsBytes);
      if ok {
        ok := CheckRelations(g.relations, m.relatedCount, m.count);
      }
    }
  }
}
