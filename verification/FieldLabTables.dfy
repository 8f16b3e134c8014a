/** Reading an index generation: streamed rows, binary search by name, and the rows of one forecast run. */
module FieldLabTables {
  import opened Wrappers
  import opened Bytes
  import opened Merging
  import opened FieldLabArtifacts
  import opened FieldLabIndex

  // ---- what the records of built tables are ----

  lemma NameRecord(c: Codec, rows: seq<Metadata>, i: nat)
    requires i < |rows|
    ensures RecordAt(Tables(c, rows).names, 32, i) == c.sha(rows[i].key)
  {
    assert forall k :: 0 <= k < |rows| ==> NameKeys(c, rows)[k] == c.sha(rows[k].key) < Pow256(32);
    PackedRecord(NameKeys(c, rows), 32, i);
  }

  lemma {:induction false} RowBytesPrefix(c: Codec, rows: seq<Metadata>, i: nat)
    requires i < |rows|
    ensures var start := |RowBytes(c, rows[..i])|;
            start + |Line(c, rows[i])| <= |RowBytes(c, rows)|
            && RowBytes(c, rows)[start..start + |Line(c, rows[i])|] == Line(c, rows[i])
    ensures |RowBytes(c, rows[..i + 1])| == |RowBytes(c, rows[..i])| + |Line(c, rows[i])|
  {
    var m := |rows| - 1;
    assert rows[..i + 1][..i] == rows[..i];
    if i == m {
      assert rows[..m + 1] == rows;
    } else {
      RowBytesPrefix(c, rows[..m], i);
      assert rows[..m][..i] == rows[..i];
      var start := |RowBytes(c, rows[..i])|;
      assert RowBytes(c, rows)[start..start + |Line(c, rows[i])|]
             == RowBytes(c, rows[..m])[start..start + |Line(c, rows[i])|];
    }
  }

  lemma OffsetRecordRange(c: Codec, rows: seq<Metadata>, i: nat)
    requires Indexable(c, rows) && i < |rows|
    ensures |RowBytes(c, rows[..i])| + |Line(c, rows[i])| <= MAX_BYTES
    ensures 0 < |Line(c, rows[i])| <= MAX_ROW
    ensures OffsetRecords(c, rows)[i] < Pow256(12)
  {
    RowBytesPrefix(c, rows, i);
    Pow256Add(4, 8);
    Pow256Add(4, 4);
    WordIsFourBytes();
  }

  /** Offset record `i` locates line `i` inside the row bytes. */
  lemma OffsetRecord(c: Codec, rows: seq<Metadata>, i: nat)
    requires Indexable(c, rows) && i < |rows|
    ensures var offsets := Tables(c, rows).offsets;
            HighField(offsets, 12, i) == |RowBytes(c, rows[..i])| && LowField(offsets, 12, i) == |Line(c, rows[i])|
  {
    forall k | 0 <= k < |rows| ensures OffsetRecords(c, rows)[k] < Pow256(12) {
      OffsetRecordRange(c, rows, k);
    }
    OffsetRecordRange(c, rows, i);
    PackedRecord(OffsetRecords(c, rows), 12, i);
    FieldsOfRecord(Tables(c, rows).offsets, 12, i);
    PartsOfJoin(|RowBytes(c, rows[..i])|, |Line(c, rows[i])|);
  }

  lemma RelationKeyRange(hash: Digest, row: nat)
    requires row < 0x1_0000_0000
    ensures Join(hash, row) < Pow256(36)
  {
    Pow256Add(32, 4);
    WordIsFourBytes();
    assert (hash + 1) * 0x1_0000_0000 <= Pow256(32) * 0x1_0000_0000;
  }

  /** `r` is the relation record of row its low part. */
  predicate IsRelation(c: Codec, rows: seq<Metadata>, r: nat) {
    LowPart(r) < |rows| && IsRelatedRow(rows[LowPart(r)]) && r == RelationKey(c, rows, LowPart(r))
  }

  lemma RelationMember(c: Codec, rows: seq<Metadata>, r: nat)
    requires |rows| <= MAX_COUNT
    ensures r in RelationSet(c, rows) <==> IsRelation(c, rows, r)
    ensures r in RelationSet(c, rows) ==> r < Pow256(36)
  {
    if r in RelationSet(c, rows) {
      var i :| 0 <= i < |rows| && IsRelatedRow(rows[i]) && r == RelationKey(c, rows, i);
      RelationKeyRange(c.sha(rows[i].run.value), i);
      PartsOfJoin(c.sha(rows[i].run.value), i);
    }
  }

  lemma RelationCount(c: Codec, rows: seq<Metadata>)
    requires |rows| <= MAX_COUNT
    ensures |RelationSet(c, rows)| <= |rows|
  {
    forall r | r in RelationSet(c, rows) ensures IsRelation(c, rows, r) {
      RelationMember(c, rows, r);
    }
    DistinctResidues(RelationSet(c, rows), |rows|);
  }

  /** Numbers with distinct residues below `n` are at most `n`. */
  lemma {:induction false} DistinctResidues(s: set<nat>, n: nat)
    requires forall r :: r in s ==> LowPart(r) < n
    requires forall r, t :: r in s && t in s && LowPart(r) == LowPart(t) ==> r == t
    ensures |s| <= n
  {
    if n == 0 {
      assert s == {};
    } else if exists r :: r in s && LowPart(r) == n - 1 {
      var r :| r in s && LowPart(r) == n - 1;
      DistinctResidues(s - {r}, n - 1);
    } else {
      DistinctResidues(s, n - 1);
    }
  }

  lemma RelationRecord(c: Codec, rows: seq<Metadata>, p: nat)
    requires |rows| <= MAX_COUNT && p < |RelationSet(c, rows)|
    ensures (p + 1) * 36 <= |Tables(c, rows).relations|
    ensures var key := SortedKeys(RelationSet(c, rows))[p];
            RecordAt(Tables(c, rows).relations, 36, p) == key && IsRelation(c, rows, key)
            && HighField(Tables(c, rows).relations, 36, p) == HighPart(key)
            && LowField(Tables(c, rows).relations, 36, p) == LowPart(key)
  {
    var keys := SortedKeys(RelationSet(c, rows));
    forall k | 0 <= k < |keys| ensures keys[k] < Pow256(36) {
      assert keys[k] in keys;
      RelationMember(c, rows, keys[k]);
    }
    PackedRecord(keys, 36, p);
    assert keys[p] in keys;
    RelationMember(c, rows, keys[p]);
    FieldsOfRecord(Tables(c, rows).relations, 36, p);
  }

  lemma TableNamesAscend(c: Codec, rows: seq<Metadata>)
    requires Indexable(c, rows)
    ensures Ascending(Tables(c, rows).names, 32, |rows|)
  {
    forall i | 0 <= i < |rows| - 1 ensures AscendsAt(Tables(c, rows).names, 32, i) {
      NameRecord(c, rows, i);
      NameRecord(c, rows, i + 1);
      assert NameKeys(c, rows)[i] < NameKeys(c, rows)[i + 1];
    }
  }

  lemma TableOffsetsContiguous(c: Codec, rows: seq<Metadata>)
    requires Indexable(c, rows)
    ensures OffsetsContiguous(Tables(c, rows).offsets, |rows|, |RowBytes(c, rows)|)
  {
    var offsets := Tables(c, rows).offsets;
    forall i | 0 <= i <= |rows| ensures EndBefore(offsets, i) == |RowBytes(c, rows[..i])| {
      if i > 0 {
        OffsetRecord(c, rows, i - 1);
        RowBytesPrefix(c, rows, i - 1);
      }
    }
    forall i | 0 <= i < |rows| ensures OffsetFits(offsets, i) {
      OffsetRecord(c, rows, i);
      OffsetRecordRange(c, rows, i);
    }
    assert rows[..|rows|] == rows;
  }

  lemma TableRelationsOrdered(c: Codec, rows: seq<Metadata>)
    requires |rows| <= MAX_COUNT
    ensures RelationsOrdered(Tables(c, rows).relations, |RelationSet(c, rows)|, |rows|)
  {
    hide RelationSet;
    var relations, related := Tables(c, rows).relations, |RelationSet(c, rows)|;
    forall p | 0 <= p < related - 1 ensures AscendsAt(relations, 36, p) {
      RelationRecord(c, rows, p);
      RelationRecord(c, rows, p + 1);
    }
    forall p | 0 <= p < related ensures LowField(relations, 36, p) < |rows| {
      RelationRecord(c, rows, p);
    }
  }

  /** A reader accepts the tables a build describes. */
  lemma TablesAccepted(c: Codec, rows: seq<Metadata>, maxNames: nat)
    requires Indexable(c, rows) && |rows| <= maxNames
    ensures Accepted(c, Tables(c, rows), maxNames)
  {
    RelationCount(c, rows);
    TableNamesAscend(c, rows);
    TableOffsetsContiguous(c, rows);
    TableRelationsOrdered(c, rows);
  }

  // ---- streaming the rows ----

  function LineLength(b: seq<byte>): (n: nat)
    ensures n <= |b|
    ensures b != [] ==> n > 0
  {
    if b == [] then 0 else if b[0] == NEWLINE then 1 else 1 + LineLength(b[1..])
  }

  /** `stream.readline(limit)`. */
  function ReadLine(b: seq<byte>, limit: nat): (line: seq<byte>)
    ensures line <= b
  {
    var n := LineLength(b);
    b[..if n < limit then n else limit]
  }

  /** The first row of `bytes` and the length of its line, or None if a reader refuses it. */
  function NextRow(c: Codec, name: nat, bytes: seq<byte>): (row: Option<(Metadata, nat)>)
    ensures row.Some? ==> row.value.1 <= |bytes|
  {
    var line := ReadLine(bytes, MAX_ROW + 1);
    if |line| > MAX_ROW || line == [] || line[|line| - 1] != NEWLINE then None
    else
      match c.decode(line)
      case None => None
      case Some(value) => if c.sha(value.key) != name then None else Some((value, |line|))
  }

  /** The rows that stream from `bytes` under these names, or None if a reader refuses them. */
  function ParseRows(c: Codec, names: seq<nat>, bytes: seq<byte>): (values: Option<seq<Metadata>>)
    ensures values.Some? ==> |values.value| == |names|
  {
    if names == [] then if bytes == [] then Some([]) else None
    else
      match NextRow(c, names[0], bytes)
      case None => None
      case Some((value, length)) =>
        Prepend([value], ParseRows(c, names[1..], bytes[length..]))
  }

  function Prepend(done: seq<Metadata>, rest: Option<seq<Metadata>>): (all: Option<seq<Metadata>>)
    ensures all.Some? <==> rest.Some?
  {
    match rest
    case None => None
    case Some(values) => Some(done + values)
  }

  function Keys(g: Generation): (keys: seq<nat>)
    requires 0 <= g.manifest.count && |g.names| == g.manifest.count * 32
    ensures |keys| == g.manifest.count
  {
    seq<nat>(g.manifest.count, i requires 0 <= i < g.manifest.count => RecordAt(g.names, 32, i))
  }

  lemma PrependTwice(done: seq<Metadata>, value: Metadata, rest: Option<seq<Metadata>>)
    ensures Prepend(done, Prepend([value], rest)) == Prepend(done + [value], rest)
  {
    if rest.Some? {
      assert done + ([value] + rest.value) == (done + [value]) + rest.value;
    }
  }

  lemma PrependToNothing(values: seq<Metadata>)
    ensures Prepend(values, Some([])) == Some(values)
  {
    assert values + [] == values;
  }

  lemma PrependNothing(rest: Option<seq<Metadata>>)
    ensures Prepend([], rest) == rest
  {
    if rest.Some? {
      assert [] + rest.value == rest.value;
    }
  }

  /** `rows`: stream the lines, checking each row's identity against the name table. */
  method ReadRows(c: Codec, g: Generation) returns (r: Option<seq<Metadata>>)
    requires 0 <= g.manifest.count && |g.names| == g.manifest.count * 32
    ensures r == ParseRows(c, Keys(g), g.rows)
  {
    hide RecordAt, NextRow, Prepend;
    ghost var keys := Keys(g);
    var values: seq<Metadata>, position := [], 0;
    assert keys[0..] == keys && g.rows[0..] == g.rows;
    PrependNothing(ParseRows(c, keys, g.rows));
    for i := 0 to g.manifest.count
      invariant 0 <= position <= |g.rows|
      invariant ParseRows(c, keys, g.rows) == Prepend(values, ParseRows(c, keys[i..], g.rows[position..]))
    {
      assert keys[i..][1..] == keys[i + 1..];
      var row := NextRow(c, RecordAt(g.names, 32, i), g.rows[position..]);
      if row.None? {
        return None;
      }
      var (value, length) := row.value;
      assert g.rows[position..][length..] == g.rows[position + length..];
      PrependTwice(values, value, ParseRows(c, keys[i + 1..], g.rows[position + length..]));
      values, position := values + [value], position + length;
    }
    if position < |g.rows| {
      return None;
    }
    assert values + [] == values;
    PrependToNothing(values);
    r := Some(values);
  }

  lemma {:induction false} RowBytesFront(c: Codec, rows: seq<Metadata>)
    requires rows != []
    ensures RowBytes(c, rows) == Line(c, rows[0]) + RowBytes(c, rows[1..])
  {
    var m := |rows| - 1;
    if m == 0 {
      assert rows[..m] == [] && rows[1..] == [];
    } else {
      RowBytesFront(c, rows[..m]);
      assert rows[..m][1..] == rows[1..][..m - 1];
    }
  }

  lemma {:induction false} LineLengthOfLine(text: seq<byte>, rest: seq<byte>)
    requires NEWLINE !in text
    ensures LineLength(text + [NEWLINE] + rest) == |text| + 1
  {
    var b := text + [NEWLINE] + rest;
    if text != [] {
      LineLengthOfLine(text[1..], rest);
      assert b[1..] == text[1..] + [NEWLINE] + rest;
      assert b[0] == text[0];
    }
  }

  /** The line of a row is what the stream reads first. */
  lemma FirstRow(c: Codec, m: Metadata, rest: seq<byte>)
    requires c.Valid() && |Line(c, m)| <= MAX_ROW
    ensures NextRow(c, c.sha(m.key), Line(c, m) + rest) == Some((m, |Line(c, m)|))
  {
    var line := Line(c, m);
    LineLengthOfLine(c.encode(m), rest);
    assert (line + rest)[..|line|] == line;
    assert c.decode(c.encode(m) + [NEWLINE]) == Some(m);
  }

  /** Streaming the row bytes of built tables gives back the rows. */
  lemma {:induction false} ParseOfRowBytes(c: Codec, rows: seq<Metadata>)
    requires c.Valid()
    requires forall i :: 0 <= i < |rows| ==> |Line(c, rows[i])| <= MAX_ROW
    ensures ParseRows(c, NameKeys(c, rows), RowBytes(c, rows)) == Some(rows)
  {
    hide NextRow, Line;
    if rows != [] {
      var line, rest := Line(c, rows[0]), RowBytes(c, rows[1..]);
      RowBytesFront(c, rows);
      FirstRow(c, rows[0], rest);
      assert (line + rest)[|line|..] == rest;
      assert NameKeys(c, rows)[1..] == NameKeys(c, rows[1..]);
      ParseOfRowBytes(c, rows[1..]);
      assert rows == [rows[0]] + rows[1..];
    }
  }

  lemma TableRows(c: Codec, rows: seq<Metadata>)
    requires c.Valid() && Indexable(c, rows)
    ensures Keys(Tables(c, rows)) == NameKeys(c, rows)
    ensures ParseRows(c, Keys(Tables(c, rows)), Tables(c, rows).rows) == Some(rows)
  {
    forall i | 0 <= i < |rows| ensures Keys(Tables(c, rows))[i] == NameKeys(c, rows)[i] {
      NameRecord(c, rows, i);
    }
    ParseOfRowBytes(c, rows);
  }

  // ---- binary search ----

  /** Record `i` exists and is below `key`. */
  predicate Below(table: seq<byte>, width: nat, i: nat, key: nat) {
    (i + 1) * width <= |table| && RecordAt(table, width, i) < key
  }

  lemma {:induction false} AscendingIsOrdered(table: seq<byte>, width: nat, count: nat, i: nat, j: nat, key: nat)
    requires |table| == count * width && Ascending(table, width, count) && i < j < count
    ensures (i + 1) * width <= |table| && (j + 1) * width <= |table|
    ensures RecordAt(table, width, i) < RecordAt(table, width, j)
    ensures Below(table, width, j, key) ==> Below(table, width, i, key)
  {
    RecordBounds(i, count, width);
    RecordBounds(j, count, width);
    assert AscendsAt(table, width, j - 1);
    if i < j - 1 {
      AscendingIsOrdered(table, width, count, i, j - 1, key);
    }
  }

  /** `bisect_left`: the first record that is not below `key`. */
  method BisectLeft(table: seq<byte>, width: nat, count: nat, key: nat) returns (low: nat)
    requires |table| == count * width && Ascending(table, width, count)
    ensures low <= count
    ensures forall i :: 0 <= i < low ==> Below(table, width, i, key)
    ensures forall i :: low <= i < count ==> !Below(table, width, i, key)
  {
    var high := count;
    low := 0;
    while low < high
      invariant low <= high <= count
      invariant forall i :: 0 <= i < low ==> Below(table, width, i, key)
      invariant forall i :: high <= i < count ==> !Below(table, width, i, key)
    {
      var middle := (low + high) / 2;
      RecordBounds(middle, count, width);
      if RecordAt(table, width, middle) < key {
        forall i | low <= i < middle ensures Below(table, width, i, key) {
          AscendingIsOrdered(table, width, count, i, middle, key);
        }
        low := middle + 1;
      } else {
        forall i | middle < i < high ensures !Below(table, width, i, key) {
          AscendingIsOrdered(table, width, count, middle, i, key);
        }
        high := middle;
      }
    }
  }

  method Contains(g: Generation, key: nat) returns (found: bool)
    requires 0 <= g.manifest.count && |g.names| == g.manifest.count * 32
    requires Ascending(g.names, 32, g.manifest.count)
    ensures found <==> key in Keys(g)
  {
    var position := BisectLeft(g.names, 32, g.manifest.count, key);
    found := position < g.manifest.count && RecordAt(g.names, 32, position) == key;
    forall i | 0 <= i < g.manifest.count ensures Keys(g)[i] == key ==> i == position {
      if position < i {
        assert !Below(g.names, 32, position, key);
        AscendingIsOrdered(g.names, 32, g.manifest.count, position, i, key);
      } else if i < position {
        assert Below(g.names, 32, i, key);
      }
    }
    assert found ==> Keys(g)[position] == key;
  }

  // ---- the rows of one forecast run ----

  predicate OfRun(m: Metadata, run: string) {
    m.kind.Related() && m.run == Some(run)
  }

  function RowsOfRun(rows: seq<Metadata>, run: string): (mine: seq<Metadata>) {
    if rows == [] then []
    else
      var m := |rows| - 1;
      RowsOfRun(rows[..m], run) + if OfRun(rows[m], run) then [rows[m]] else []
  }

  predicate HashesToRun(c: Codec, m: Metadata, run: string) {
    IsRelatedRow(m) && c.sha(m.run.value) == c.sha(run)
  }

  /** Some row belongs to another run with the same hash. */
  ghost predicate RunCollision(c: Codec, rows: seq<Metadata>, run: string) {
    exists i :: 0 <= i < |rows| && HashesToRun(c, rows[i], run) && rows[i].run != Some(run)
  }

  lemma {:induction false} RowsOfRunSkip(c: Codec, rows: seq<Metadata>, a: nat, b: nat, run: string)
    requires a <= b <= |rows|
    requires forall i :: a <= i < b ==> !HashesToRun(c, rows[i], run)
    ensures RowsOfRun(rows[..b], run) == RowsOfRun(rows[..a], run)
  {
    if a < b {
      RowsOfRunSkip(c, rows, a, b - 1, run);
      assert rows[..b][..b - 1] == rows[..b - 1];
      assert !OfRun(rows[b - 1], run);
    }
  }

  /** Row `i` hashes to the run exactly when a relation record says so. */
  lemma RelationOfRow(c: Codec, rows: seq<Metadata>, i: nat, run: string)
    requires |rows| <= MAX_COUNT && i < |rows|
    ensures HashesToRun(c, rows[i], run) <==> Join(c.sha(run), i) in RelationSet(c, rows)
  {
    PartsOfJoin(c.sha(run), i);
    RelationMember(c, rows, Join(c.sha(run), i));
  }

  /** No row between two neighbouring relation records hashes to the run. */
  lemma NoRowBetween(c: Codec, rows: seq<Metadata>, run: string, keys: seq<nat>, p: nat, a: nat, b: nat)
    requires |rows| <= MAX_COUNT && keys == SortedKeys(RelationSet(c, rows)) && p <= |keys|
    requires a <= b <= |rows|
    requires p > 0 ==> keys[p - 1] < Join(c.sha(run), a)
    requires p < |keys| ==> Join(c.sha(run), b) <= keys[p]
    ensures forall i :: a <= i < b ==> !HashesToRun(c, rows[i], run)
  {
    forall i | a <= i < b ensures !HashesToRun(c, rows[i], run) {
      RelationOfRow(c, rows, i, run);
      NotBetween(keys, p, Join(c.sha(run), i));
    }
  }

  lemma NotBetween(keys: seq<nat>, p: nat, r: nat)
    requires StrictlyIncreasing(keys) && p <= |keys|
    requires p > 0 ==> keys[p - 1] < r
    requires p < |keys| ==> r < keys[p]
    ensures r !in keys
  {
  }

  /** Reading by offset record `row` gives line `row`. */
  lemma RowSlice(c: Codec, rows: seq<Metadata>, row: nat)
    requires c.Valid() && Indexable(c, rows) && row < |rows|
    ensures var g := Tables(c, rows);
            var start, end := HighField(g.offsets, 12, row),
                HighField(g.offsets, 12, row) + LowField(g.offsets, 12, row);
            end <= |g.rows| && c.decode(g.rows[start..end]) == Some(rows[row])
  {
    hide HighField, LowField, Pack, OffsetRecords, NameKeys, RelationSet;
    OffsetRecord(c, rows, row);
    RowBytesPrefix(c, rows, row);
    assert c.decode(c.encode(rows[row]) + [NEWLINE]) == Some(rows[row]);
  }

  /** Record `p` belongs to the run exactly when its hash field is the run's; otherwise it is past it. */
  lemma RelationStep(c: Codec, rows: seq<Metadata>, run: string, p: nat)
    requires |rows| <= MAX_COUNT && p < |RelationSet(c, rows)|
    requires SortedKeys(RelationSet(c, rows))[p] >= Join(c.sha(run), 0)
    ensures var relations, key := Tables(c, rows).relations, SortedKeys(RelationSet(c, rows))[p];
            var row := LowField(relations, 36, p);
            if HighField(relations, 36, p) == c.sha(run)
            then row < |rows| && key == Join(c.sha(run), row) && HashesToRun(c, rows[row], run)
            else key >= Join(c.sha(run) + 1, 0)
  {
    hide Pow256, Tables, Pack, RecordAt, HighField, LowField;
    RelationRecord(c, rows, p);
    var key := SortedKeys(RelationSet(c, rows))[p];
    PartsOfJoin(c.sha(rows[LowPart(key)].run.value), LowPart(key));
  }

  lemma RelationTableShape(c: Codec, rows: seq<Metadata>)
    requires Indexable(c, rows)
    ensures var g, related := Tables(c, rows), |RelationSet(c, rows)|;
            && g.manifest.relatedCount == related && |g.relations| == related * 36
            && Ascending(g.relations, 36, related)
    ensures |Tables(c, rows).offsets| == |rows| * 12 && |Tables(c, rows).names| == |rows| * 32
  {
    TableRelationsOrdered(c, rows);
  }

  /** Every row before `next` is settled: the run's rows are collected and no other run collides. */
  ghost predicate Settled(c: Codec, rows: seq<Metadata>, run: string, next: nat, values: seq<Metadata>) {
    && next <= |rows| && values == RowsOfRun(rows[..next], run)
    && (forall i :: 0 <= i < next && HashesToRun(c, rows[i], run) ==> rows[i].run == Some(run))
  }

  lemma Settle(c: Codec, rows: seq<Metadata>, run: string, next: nat, values: seq<Metadata>, row: nat)
    requires Settled(c, rows, run, next, values) && next <= row < |rows|
    requires forall i :: next <= i < row ==> !HashesToRun(c, rows[i], run)
    requires HashesToRun(c, rows[row], run) && rows[row].run == Some(run)
    ensures Settled(c, rows, run, row + 1, values + [rows[row]])
  {
    RowsOfRunSkip(c, rows, next, row, run);
    assert rows[..row + 1][..row] == rows[..row];
  }

  /** A walk over the run's relation records stands at record `p`. */
  ghost predicate Walked(c: Codec, rows: seq<Metadata>, run: string, p: nat, next: nat, values: seq<Metadata>) {
    var keys := SortedKeys(RelationSet(c, rows));
    && Settled(c, rows, run, next, values) && p <= |keys|
    && (p > 0 ==> keys[p - 1] < Join(c.sha(run), next))
    && (p < |keys| ==> Join(c.sha(run), next) <= keys[p])
  }

  /** Where bisection puts the walk. */
  lemma WalkStart(c: Codec, rows: seq<Metadata>, run: string, position: nat)
    requires Indexable(c, rows) && position <= |RelationSet(c, rows)|
    requires var relations := Tables(c, rows).relations;
             && (forall i :: 0 <= i < position ==> Below(relations, 36, i, Join(c.sha(run), 0)))
             && (forall i :: position <= i < |RelationSet(c, rows)| ==> !Below(relations, 36, i, Join(c.sha(run), 0)))
    ensures Walked(c, rows, run, position, 0, [])
  {
    hide Tables, Pow256, RelationSet;
    var relations := Tables(c, rows).relations;
    if position > 0 {
      assert Below(relations, 36, position - 1, Join(c.sha(run), 0));
      RelationRecord(c, rows, position - 1);
    }
    if position < |RelationSet(c, rows)| {
      assert !Below(relations, 36, position, Join(c.sha(run), 0));
      RelationRecord(c, rows, position);
    }
  }

  lemma WalkedAbove(c: Codec, rows: seq<Metadata>, run: string, p: nat, next: nat, values: seq<Metadata>)
    requires Walked(c, rows, run, p, next, values) && p < |RelationSet(c, rows)|
    ensures SortedKeys(RelationSet(c, rows))[p] >= Join(c.sha(run), 0)
  {
    hide Settled, RelationSet;
  }

  lemma RelatedRow(c: Codec, rows: seq<Metadata>, run: string, row: nat)
    requires row < |rows| && HashesToRun(c, rows[row], run)
    ensures rows[row].kind.Related()
  {
  }

  lemma WalkStep(c: Codec, rows: seq<Metadata>, run: string, p: nat, next: nat, values: seq<Metadata>, row: nat)
    requires |rows| <= MAX_COUNT && Walked(c, rows, run, p, next, values)
    requires p < |RelationSet(c, rows)| && row < |rows|
    requires SortedKeys(RelationSet(c, rows))[p] == Join(c.sha(run), row)
    requires HashesToRun(c, rows[row], run)
    ensures rows[row].run == Some(run) ==> Walked(c, rows, run, p + 1, row + 1, values + [rows[row]])
    ensures rows[row].run != Some(run) ==> RunCollision(c, rows, run)
  {
    hide Pow256, RelationSet, Settled;
    var keys := SortedKeys(RelationSet(c, rows));
    NoRowBetween(c, rows, run, keys, p, next, row);
    if rows[row].run == Some(run) {
      Settle(c, rows, run, next, values, row);
    }
  }

  lemma WalkDone(c: Codec, rows: seq<Metadata>, run: string, p: nat, next: nat, values: seq<Metadata>)
    requires |rows| <= MAX_COUNT && Walked(c, rows, run, p, next, values)
    requires p < |RelationSet(c, rows)| ==> Join(c.sha(run) + 1, 0) <= SortedKeys(RelationSet(c, rows))[p]
    ensures values == RowsOfRun(rows, run) && !RunCollision(c, rows, run)
  {
    NoRowBetween(c, rows, run, SortedKeys(RelationSet(c, rows)), p, next, |rows|);
    RowsOfRunSkip(c, rows, next, |rows|, run);
    assert rows[..|rows|] == rows;
    assert forall i :: 0 <= i < |rows| && HashesToRun(c, rows[i], run) ==> rows[i].run == Some(run);
  }

  /** The row is where its offset record says, under its own name. */
  ghost predicate RowLies(c: Codec, g: Generation, row: nat, m: Metadata) {
    && (row + 1) * 12 <= |g.offsets| && (row + 1) * 32 <= |g.names|
    && var offset, length := HighField(g.offsets, 12, row), LowField(g.offsets, 12, row);
       && offset + length <= |g.rows| && c.decode(g.rows[offset..offset + length]) == Some(m)
       && RecordAt(g.names, 32, row) == c.sha(m.key)
  }

  lemma RowIsThere(c: Codec, rows: seq<Metadata>, row: nat)
    requires c.Valid() && Indexable(c, rows) && row < |rows|
    ensures RowLies(c, Tables(c, rows), row, rows[row])
  {
    RelationTableShape(c, rows);
    RecordBounds(row, |rows|, 12);
    RecordBounds(row, |rows|, 32);
    RowSlice(c, rows, row);
    NameRecord(c, rows, row);
  }

  /** Read one row through its offset record, with the identity check of `related`. */
  method ReadRow(c: Codec, g: Generation, row: nat, ghost m: Metadata) returns (value: Option<Metadata>)
    requires RowLies(c, g, row, m)
    ensures value == Some(m)
  {
    var offset, length := HighField(g.offsets, 12, row), LowField(g.offsets, 12, row);
    var read := c.decode(g.rows[offset..offset + length]);
    value := if read.Some? && c.sha(read.value.key) == RecordAt(g.names, 32, row) then read else None;
  }

  /** One step of `related`: past the run's records, or the row of this record if it passes the run's check. */
  method ReadRelation(c: Codec, g: Generation, run: string, position: nat, ghost rows: seq<Metadata>)
    returns (past: bool, row: nat, value: Option<Metadata>)
    requires c.Valid() && Indexable(c, rows) && g == Tables(c, rows) && position < |RelationSet(c, rows)|
    requires SortedKeys(RelationSet(c, rows))[position] >= Join(c.sha(run), 0)
    requires (position + 1) * 36 <= |g.relations|
    ensures past ==> SortedKeys(RelationSet(c, rows))[position] >= Join(c.sha(run) + 1, 0)
    ensures !past ==>
              && row < |rows| && SortedKeys(RelationSet(c, rows))[position] == Join(c.sha(run), row)
              && HashesToRun(c, rows[row], run) && (value.Some? <==> rows[row].run == Some(run))
              && (value.Some? ==> value.value == rows[row])
  {
    assert |rows| <= MAX_COUNT;
    hide *;
    row, value := 0, None;
    RelationStep(c, rows, run, position);
    past := HighField(g.relations, 36, position) != c.sha(run);
    if past {
      return;
    }
    row := LowField(g.relations, 36, position);
    RelatedRow(c, rows, run, row);
    RowIsThere(c, rows, row);
    value := ReadRow(c, g, row, rows[row]);
    if value.value.run != Some(run) || !value.value.kind.Related() {
      value := None;
    }
  }

  lemma WalkIsThere(c: Codec, rows: seq<Metadata>, run: string, p: nat, next: nat, values: seq<Metadata>)
    requires Indexable(c, rows) && Walked(c, rows, run, p, next, values) && p < |RelationSet(c, rows)|
    ensures SortedKeys(RelationSet(c, rows))[p] >= Join(c.sha(run), 0) && (p + 1) * 36 <= |Tables(c, rows).relations|
  {
    RelationTableShape(c, rows);
    WalkedAbove(c, rows, run, p, next, values);
    RecordBounds(p, |RelationSet(c, rows)|, 36);
  }

  /** One turn of the walk over the run's records. */
  method RelatedStep(c: Codec, g: Generation, run: string, position: nat, ghost next: nat, ghost values: seq<Metadata>,
                     ghost rows: seq<Metadata>)
    returns (past: bool, value: Option<Metadata>, ghost next': nat)
    requires c.Valid() && Indexable(c, rows) && g == Tables(c, rows) && position < |RelationSet(c, rows)|
    requires Walked(c, rows, run, position, next, values)
    ensures past ==> next' == next && SortedKeys(RelationSet(c, rows))[position] >= Join(c.sha(run) + 1, 0)
    ensures !past && value.Some? ==> Walked(c, rows, run, position + 1, next', values + [value.value])
    ensures !past && value.None? ==> RunCollision(c, rows, run)
  {
    WalkIsThere(c, rows, run, position, next, values);
    var row;
    past, row, value := ReadRelation(c, g, run, position, rows);
    next' := if past then next else row + 1;
    if !past {
      WalkStep(c, rows, run, position, next, values, row);
    }
  }

  /**
    `Generation.related`: bisect to the run's first relation record and walk while the hash matches.
    On the tables of `rows` it gives exactly the rows of the run, in order, and it refuses exactly
    when another run's row shares the hash.
   */
  method Related(c: Codec, g: Generation, run: string, ghost rows: seq<Metadata>) returns (r: Option<seq<Metadata>>)
    requires c.Valid() && Indexable(c, rows) && g == Tables(c, rows)
    ensures r.Some? ==> r.value == RowsOfRun(rows, run)
    ensures r.None? <==> RunCollision(c, rows, run)
  {
    assert |rows| <= MAX_COUNT;
    hide Tables, RelationSet, Indexable, Walked, RowsOfRun, RunCollision, HashesToRun, Below, Ascending, Join, Pow256;
    RelationTableShape(c, rows);
    var count := g.manifest.relatedCount;
    var position := BisectLeft(g.relations, 36, count, Join(c.sha(run), 0));
    var values: seq<Metadata> := [];
    ghost var next := 0;
    WalkStart(c, rows, run, position);
    while position < count
      invariant Walked(c, rows, run, position, next, values)
      invariant position <= count
    {
      var past, value;
      past, value, next := RelatedStep(c, g, run, position, next, values, rows);
      if past {
        break;
      }
      if value.None? {
        return None;
      }
      values, position := values + [value.value], position + 1;
    }
    WalkDone(c, rows, run, position, next, values);
    r := Some(values);
  }
}
