/** Building an index generation: inputs from a verified base and new envelopes, external sort, table writing. */
module FieldLabBuild {
  import opened Wrappers
  import opened Bytes
  import Enumeration
  import opened Merging
  import opened FieldLabArtifacts
  import opened FieldLabIndex
  import opened FieldLabTables

  const CHUNK: nat := 8192
  const BATCH: nat := 64

  // ---- directory listings ----

  ghost predicate Enumerates(names: seq<nat>, keys: set<nat>) {
    (forall i, j :: 0 <= i < j < |names| ==> names[i] != names[j]) && (forall k :: k in names <==> k in keys)
  }

  /** One directory scan, in whatever order the file system gives, refused above the name limit. */
  method List(files: map<nat, File>, maxNames: nat) returns (r: Option<seq<nat>>)
    ensures r.Some? <==> |files| <= maxNames
    ensures r.Some? ==> Enumerates(r.value, files.Keys) && |r.value| == |files|
  {
    var names: seq<nat>, remaining := [], files.Keys;
    while remaining != {}
      invariant remaining <= files.Keys
      invariant Enumerates(names, files.Keys - remaining)
      invariant |names| + |remaining| == |files.Keys|
      invariant |names| <= maxNames
      decreases |remaining|
    {
      var name :| name in remaining;
      if |names| + 1 > maxNames {
        return None;
      }
      names, remaining := names + [name], remaining - {name};
    }
    r := Some(names);
  }

  // ---- inputs ----

  function EnvelopeOf(c: Codec, files: map<nat, File>, name: nat): (m: Option<Metadata>) {
    if name in files && c.Faithful(name, files[name]) then Some(c.MetadataOf(files[name].artifact)) else None
  }

  /** The values are the metadata of exactly the files called `names`, each once. */
  ghost predicate Collected(c: Codec, files: map<nat, File>, values: seq<Metadata>, names: set<nat>) {
    && Enumerates(NameKeys(c, values), names)
    && (forall i :: 0 <= i < |values| ==> EnvelopeOf(c, files, c.sha(values[i].key)) == Some(values[i]))
  }

  /** The row that a build gives an artifact: the one that it reuses, or what the envelope says. */
  ghost function RowFor(c: Codec, files: map<nat, File>, known: map<nat, Metadata>, name: nat): Option<Metadata> {
    if name in known then Some(known[name]) else EnvelopeOf(c, files, name)
  }

  /** The reused rows name artifacts that are there, and every other artifact can be read. */
  ghost predicate Readable(c: Codec, files: map<nat, File>, known: map<nat, Metadata>) {
    && (forall n :: n in known ==> n in files && c.sha(known[n].key) == n)
    && (forall n :: n in files ==> n in known || c.Faithful(n, files[n]))
  }

  /** The values are the rows of exactly the files called `names`, each once. */
  ghost predicate Drawn(c: Codec, files: map<nat, File>, known: map<nat, Metadata>, values: seq<Metadata>,
                        names: set<nat>) {
    && Enumerates(NameKeys(c, values), names)
    && (forall i :: 0 <= i < |values| ==> RowFor(c, files, known, c.sha(values[i].key)) == Some(values[i]))
  }

  ghost function BuiltRow(c: Codec, files: map<nat, File>, known: map<nat, Metadata>, name: nat): (m: Metadata)
    requires Readable(c, files, known) && name in files
    ensures c.sha(m.key) == name && RowFor(c, files, known, name) == Some(m)
  {
    RowFor(c, files, known, name).value
  }

  /** The rows of a whole inventory, in name order. */
  ghost function BuiltRows(c: Codec, files: map<nat, File>, known: map<nat, Metadata>): (rows: seq<Metadata>)
    requires Readable(c, files, known)
    ensures |rows| == |files| && NameKeys(c, rows) == SortedKeys(files.Keys)
  {
    var names := SortedKeys(files.Keys);
    assert |files| == |files.Keys|;
    assert forall i :: 0 <= i < |names| ==> names[i] in names;
    seq(|names|, i requires 0 <= i < |names| => BuiltRow(c, files, known, names[i]))
  }

  /** The rows of a stored generation describe the artifacts they name. */
  ghost predicate FaithfulBase(c: Codec, files: map<nat, File>, g: Generation)
    requires 0 <= g.manifest.count && |g.names| == g.manifest.count * 32
  {
    var rows := ParseRows(c, Keys(g), g.rows);
    rows.Some? ==>
      forall i :: 0 <= i < |rows.value| && c.sha(rows.value[i].key) in files ==>
        var name := c.sha(rows.value[i].key);
        c.Faithful(name, files[name]) && c.Matches(files[name].artifact, rows.value[i])
  }

  /** A base the build can reuse: accepted, readable, and naming no artifact that is gone. */
  ghost predicate BaseUsable(c: Codec, files: map<nat, File>, g: Generation, maxNames: nat) {
    && Accepted(c, g, maxNames)
    && ParseRows(c, Keys(g), g.rows).Some?
    && (forall k :: k in Keys(g) ==> k in files)
  }

  /** The counting lemma: as many matches as base names means exactly that no base name is missing. */
  lemma MatchedAll(keys: seq<nat>, present: set<nat>, found: set<nat>)
    requires StrictlyIncreasing(keys)
    requires forall k :: k in found <==> k in present && k in keys
    ensures |found| == |keys| <==> forall k :: k in keys ==> k in present
  {
    var all := set k | k in keys;
    Enumeration.EnumerationLength(keys, all);
    if forall k :: k in keys ==> k in present {
      assert found == all;
    }
    if |found| == |keys| {
      Enumeration.EqualBySize(found, all);
    }
  }

  lemma KeysStrict(c: Codec, g: Generation, maxNames: nat)
    requires Accepted(c, g, maxNames)
    ensures StrictlyIncreasing(Keys(g))
  {
    forall i, j | 0 <= i < j < |Keys(g)| ensures Keys(g)[i] < Keys(g)[j] {
      AscendingIsOrdered(g.names, 32, g.manifest.count, i, j, 0);
    }
  }

  method CountMatches(g: Generation, names: seq<nat>) returns (matched: nat, ghost found: set<nat>)
    requires 0 <= g.manifest.count && |g.names| == g.manifest.count * 32
    requires Ascending(g.names, 32, g.manifest.count)
    requires forall i, j :: 0 <= i < j < |names| ==> names[i] != names[j]
    ensures matched == |found|
    ensures forall n :: n in found <==> n in names && n in Keys(g)
  {
    matched, found := 0, {};
    for i := 0 to |names|
      invariant matched == |found|
      invariant forall n :: n in found <==> n in names[..i] && n in Keys(g)
    {
      assert names[..i + 1] == names[..i] + [names[i]];
      var present := Contains(g, names[i]);
      if present {
        matched, found := matched + 1, found + {names[i]};
      }
    }
    assert names[..|names|] == names;
  }

  lemma {:induction false} ParsedNames(c: Codec, names: seq<nat>, bytes: seq<byte>)
    requires ParseRows(c, names, bytes).Some?
    ensures var rows := ParseRows(c, names, bytes).value;
            forall i :: 0 <= i < |names| ==> c.sha(rows[i].key) == names[i]
  {
    if names != [] {
      var (value, length) := NextRow(c, names[0], bytes).value;
      ParsedNames(c, names[1..], bytes[length..]);
    }
  }

  /** Whether a row must be read again from its envelope, having been written before the `run` field existed. */
  predicate Outdated(m: Metadata) {
    m.kind.Related() && m.run.None?
  }

  /** `row` describes the file its key names. */
  predicate Describes(c: Codec, files: map<nat, File>, row: Metadata) {
    var name := c.sha(row.key);
    name in files && c.Faithful(name, files[name]) && c.Matches(files[name].artifact, row)
  }

  /** An outdated row agrees with its envelope on every field it has. */
  predicate Upgradable(c: Codec, files: map<nat, File>, row: Metadata) {
    var upgraded := EnvelopeOf(c, files, c.sha(row.key));
    upgraded.Some? && upgraded.value.(run := None) == row
  }

  function Upgrade(c: Codec, files: map<nat, File>, row: Metadata): (upgraded: Metadata)
    requires Outdated(row) ==> Upgradable(c, files, row)
  {
    if Outdated(row) then EnvelopeOf(c, files, c.sha(row.key)).value else row
  }

  method UpgradeRows(c: Codec, files: map<nat, File>, rows: seq<Metadata>) returns (r: Option<seq<Metadata>>)
    ensures r.Some? <==> forall i :: 0 <= i < |rows| && Outdated(rows[i]) ==> Upgradable(c, files, rows[i])
    ensures r.Some? ==> |r.value| == |rows| && forall i :: 0 <= i < |rows| ==> r.value[i] == Upgrade(c, files, rows[i])
  {
    var values: seq<Metadata> := [];
    for i := 0 to |rows|
      invariant |values| == i
      invariant forall k :: 0 <= k < i && Outdated(rows[k]) ==> Upgradable(c, files, rows[k])
      invariant forall k :: 0 <= k < i ==> values[k] == Upgrade(c, files, rows[k])
    {
      var value := rows[i];
      if Outdated(value) {
        var upgraded := EnvelopeOf(c, files, c.sha(value.key));
        if upgraded.None? || upgraded.value.(run := None) != value {
          return None;
        }
        value := upgraded.value;
      }
      values := values + [value];
    }
    r := Some(values);
  }

  lemma UpgradeOfDescribed(c: Codec, files: map<nat, File>, row: Metadata)
    requires Describes(c, files, row)
    ensures Outdated(row) ==> Upgradable(c, files, row)
    ensures Upgrade(c, files, row).key == row.key
    ensures EnvelopeOf(c, files, c.sha(row.key)) == Some(Upgrade(c, files, row))
  {
  }

  /** A usable base whose outdated rows agree with the envelopes that replace them. */
  ghost predicate Reusable(c: Codec, files: map<nat, File>, g: Generation, maxNames: nat) {
    && BaseUsable(c, files, g, maxNames)
    && forall m :: m in ParseRows(c, Keys(g), g.rows).value && Outdated(m) ==> Upgradable(c, files, m)
  }

  /** The rows that a build takes from its base. */
  ghost function BaseRows(c: Codec, files: map<nat, File>, g: Generation, maxNames: nat): (rows: seq<Metadata>)
    requires Reusable(c, files, g, maxNames)
    ensures NameKeys(c, rows) == Keys(g)
  {
    var rows := ParseRows(c, Keys(g), g.rows).value;
    ParsedNames(c, Keys(g), g.rows);
    assert forall i :: 0 <= i < |rows| ==> rows[i] in rows;
    seq(|rows|, i requires 0 <= i < |rows| => Upgrade(c, files, rows[i]))
  }

  ghost function RowNamed(c: Codec, rows: seq<Metadata>, name: nat): (m: Metadata)
    requires name in NameKeys(c, rows)
    ensures m in rows && c.sha(m.key) == name
  {
    var i :| 0 <= i < |rows| && NameKeys(c, rows)[i] == name;
    rows[i]
  }

  ghost function ByName(c: Codec, rows: seq<Metadata>): map<nat, Metadata> {
    map n | n in NameKeys(c, rows) :: RowNamed(c, rows, n)
  }

  ghost predicate BaseReusable(c: Codec, files: map<nat, File>, base: Option<Generation>, maxNames: nat) {
    base.Some? ==> Reusable(c, files, base.value, maxNames)
  }

  /** What a build reuses, by name. */
  ghost function Reused(c: Codec, files: map<nat, File>, base: Option<Generation>,
                        maxNames: nat): (known: map<nat, Metadata>)
    requires BaseReusable(c, files, base, maxNames)
  {
    if base.None? then map[]
    else ByName(c, BaseRows(c, files, base.value, maxNames))
  }

  /** The reused rows name artifacts that are there. */
  ghost predicate Named(c: Codec, files: map<nat, File>, known: map<nat, Metadata>) {
    forall n :: n in known ==> n in files && c.sha(known[n].key) == n
  }

  lemma ReusedIsDrawn(c: Codec, files: map<nat, File>, g: Generation, maxNames: nat)
    requires Reusable(c, files, g, maxNames)
    ensures var known := Reused(c, files, Some(g), maxNames);
            && Named(c, files, known) && known.Keys == (set k | k in Keys(g))
            && Drawn(c, files, known, BaseRows(c, files, g, maxNames), known.Keys)
  {
    KeysStrict(c, g, maxNames);
    hide BaseRows, Accepted, ParseRows, Keys;
    ByNameIsDrawn(c, files, BaseRows(c, files, g, maxNames));
  }

  /** Rows under distinct names are the rows of a map. */
  lemma ByNameIsDrawn(c: Codec, files: map<nat, File>, rows: seq<Metadata>)
    requires StrictlyIncreasing(NameKeys(c, rows))
    ensures Drawn(c, files, ByName(c, rows), rows, ByName(c, rows).Keys)
    ensures forall n :: n in ByName(c, rows) ==> c.sha(ByName(c, rows)[n].key) == n
  {
    var known := ByName(c, rows);
    forall i | 0 <= i < |rows| ensures RowFor(c, files, known, c.sha(rows[i].key)) == Some(rows[i]) {
      var name := NameKeys(c, rows)[i];
      assert name in NameKeys(c, rows);
      var k :| 0 <= k < |rows| && rows[k] == RowNamed(c, rows, name);
      assert NameKeys(c, rows)[k] == name;
    }
  }

  /** The rows of the base, or None when it cannot be reused. */
  method ReuseBase(c: Codec, files: map<nat, File>, g: Generation, maxNames: nat) returns (r: Option<seq<Metadata>>)
    ensures r.Some? <==> Reusable(c, files, g, maxNames) && |files| <= maxNames
    ensures r.Some? ==> r.value == BaseRows(c, files, g, maxNames)
  {
    hide ParseRows, Keys, RecordAt;
    var ok := Open(c, g, maxNames);
    if !ok {
      return None;
    }
    var names := List(files, maxNames);
    if names.None? {
      return None;
    }
    KeysStrict(c, g, maxNames);
    var matched, found := CountMatches(g, names.value);
    MatchedAll(Keys(g), files.Keys, found);
    if matched != g.manifest.count {
      return None;
    }
    var rows := ReadRows(c, g);
    if rows.None? {
      return None;
    }
    r := UpgradeRows(c, files, rows.value);
    assert forall i :: 0 <= i < |rows.value| ==> rows.value[i] in rows.value;
  }

  /** A base whose rows describe the artifacts they name gives those artifacts' metadata. */
  lemma FaithfulReuse(c: Codec, files: map<nat, File>, base: Option<Generation>, maxNames: nat)
    requires base.Some? && Accepted(c, base.value, maxNames) ==> FaithfulBase(c, files, base.value)
    ensures BaseReusable(c, files, base, maxNames) <==> (base.Some? ==> BaseUsable(c, files, base.value, maxNames))
    ensures BaseReusable(c, files, base, maxNames) ==> Agreeing(c, files, Reused(c, files, base, maxNames))
  {
    if base.Some? && BaseUsable(c, files, base.value, maxNames) {
      var g := base.value;
      ParsedNames(c, Keys(g), g.rows);
      var rows := ParseRows(c, Keys(g), g.rows).value;
      forall m | m in rows
        ensures c.sha(m.key) in files && (Outdated(m) ==> Upgradable(c, files, m))
        ensures EnvelopeOf(c, files, c.sha(m.key)) == Some(Upgrade(c, files, m)) && Upgrade(c, files, m).key == m.key
      {
        var i :| 0 <= i < |rows| && rows[i] == m;
        assert Keys(g)[i] in Keys(g);
        UpgradeOfDescribed(c, files, m);
      }
      var upgraded := BaseRows(c, files, g, maxNames);
      forall m | m in upgraded ensures EnvelopeOf(c, files, c.sha(m.key)) == Some(m) {
        var i :| 0 <= i < |upgraded| && upgraded[i] == m;
        assert rows[i] in rows;
      }
    }
  }

  /** Every reused row is the metadata of its artifact. */
  ghost predicate Agreeing(c: Codec, files: map<nat, File>, known: map<nat, Metadata>) {
    forall n :: n in known ==> EnvelopeOf(c, files, n) == Some(known[n])
  }

  // ---- new envelopes, in batches ----

  /** `pool.map(envelope, pending)`, which keeps the order and stops at the first refusal. */
  method Envelopes(c: Codec, files: map<nat, File>, pending: seq<nat>) returns (r: Option<seq<Metadata>>)
    ensures r.Some? <==> forall i :: 0 <= i < |pending| ==> EnvelopeOf(c, files, pending[i]).Some?
    ensures r.Some? ==> |r.value| == |pending|
                        && forall i :: 0 <= i < |pending| ==> EnvelopeOf(c, files, pending[i]) == Some(r.value[i])
  {
    var values: seq<Metadata> := [];
    for i := 0 to |pending|
      invariant |values| == i
      invariant forall k :: 0 <= k < i ==> EnvelopeOf(c, files, pending[k]) == Some(values[k])
    {
      var value := EnvelopeOf(c, files, pending[i]);
      if value.None? {
        return None;
      }
      values := values + [value.value];
    }
    r := Some(values);
  }

  lemma EnumeratesAppend(a: seq<nat>, names: set<nat>, b: seq<nat>, more: set<nat>)
    requires Enumerates(a, names) && Enumerates(b, more) && names !! more
    ensures Enumerates(a + b, names + more)
  {
    var all := a + b;
    forall i, j | 0 <= i < j < |all| ensures all[i] != all[j] {
      assert i < |a| <= j ==> all[i] in names && all[j] in more;
    }
  }

  lemma CollectedAppend(c: Codec, files: map<nat, File>, values: seq<Metadata>, names: set<nat>,
                        batch: seq<nat>, more: seq<Metadata>)
    requires Collected(c, files, values, names)
    requires |more| == |batch| && forall i :: 0 <= i < |batch| ==> EnvelopeOf(c, files, batch[i]) == Some(more[i])
    requires forall i, j :: 0 <= i < j < |batch| ==> batch[i] != batch[j]
    requires forall n :: n in batch ==> n !in names
    ensures Collected(c, files, values + more, names + set n | n in batch)
  {
    assert forall k :: 0 <= k < |batch| ==> c.sha(more[k].key) == batch[k];
    hide EnvelopeOf;
    assert NameKeys(c, values + more) == NameKeys(c, values) + batch;
    EnumeratesAppend(NameKeys(c, values), names, batch, set n | n in batch);
  }

  lemma DrawnAppend(c: Codec, files: map<nat, File>, known: map<nat, Metadata>, values: seq<Metadata>, names: set<nat>,
                    batch: seq<nat>, more: seq<Metadata>)
    requires Drawn(c, files, known, values, names)
    requires |more| == |batch| && forall i :: 0 <= i < |batch| ==> EnvelopeOf(c, files, batch[i]) == Some(more[i])
    requires forall i, j :: 0 <= i < j < |batch| ==> batch[i] != batch[j]
    requires forall n :: n in batch ==> n !in names && n !in known
    ensures Drawn(c, files, known, values + more, names + set n | n in batch)
  {
    assert forall k :: 0 <= k < |batch| ==> c.sha(more[k].key) == batch[k] && batch[k] in batch;
    hide EnvelopeOf;
    assert NameKeys(c, values + more) == NameKeys(c, values) + batch;
    EnumeratesAppend(NameKeys(c, values), names, batch, set n | n in batch);
  }

  /** Of the names scanned so far, those already collected and those still pending. */
  ghost predicate Scanned(known: set<nat>, scanned: seq<nat>, pending: seq<nat>, done: set<nat>) {
    && known <= done
    && (forall n :: n in done ==> n in known || n in scanned)
    && (forall n :: n in scanned ==> n in done || n in pending)
    && (forall n :: n in pending ==> n in scanned && n !in done)
    && (forall i, j :: 0 <= i < j < |pending| ==> pending[i] != pending[j])
  }

  lemma ScanOne(known: set<nat>, scanned: seq<nat>, pending: seq<nat>, done: set<nat>, name: nat)
    requires Scanned(known, scanned, pending, done) && name !in scanned
    ensures name in known ==> Scanned(known, scanned + [name], pending, done)
    ensures name !in known ==> Scanned(known, scanned + [name], pending + [name], done)
  {
  }

  lemma ScanFlush(known: set<nat>, scanned: seq<nat>, pending: seq<nat>, done: set<nat>)
    requires Scanned(known, scanned, pending, done)
    ensures Scanned(known, scanned, [], done + set n | n in pending)
  {
  }

  /** Where the collection stands after `n` scanned names. */
  ghost predicate Collecting(c: Codec, files: map<nat, File>, known: map<nat, Metadata>, names: seq<nat>, n: nat,
                             pending: seq<nat>, done: set<nat>, values: seq<Metadata>) {
    && n <= |names| && Enumerates(names, files.Keys)
    && Scanned(known.Keys, names[..n], pending, done)
    && Drawn(c, files, known, values, done)
  }

  method FlushPending(c: Codec, files: map<nat, File>, pending: seq<nat>, values: seq<Metadata>,
                      ghost known: map<nat, Metadata>, ghost names: seq<nat>, ghost n: nat, ghost done: set<nat>)
    returns (r: Option<seq<Metadata>>)
    requires Collecting(c, files, known, names, n, pending, done, values)
    ensures r.None? ==> !Readable(c, files, known)
    ensures r.Some? ==> Collecting(c, files, known, names, n, [], done + (set m | m in pending), r.value)
  {
    hide Drawn, EnvelopeOf;
    ScanPending(c, files, known, names, n, pending, done);
    var more := Envelopes(c, files, pending);
    if more.None? {
      return None;
    }
    DrawnAppend(c, files, known, values, done, pending, more.value);
    ScanFlush(known.Keys, names[..n], pending, done);
    r := Some(values + more.value);
  }

  lemma CollectOne(c: Codec, files: map<nat, File>, known: map<nat, Metadata>, names: seq<nat>, n: nat,
                   pending: seq<nat>, done: set<nat>, values: seq<Metadata>)
    requires Collecting(c, files, known, names, n, pending, done, values) && n < |names|
    ensures Collecting(c, files, known, names, n + 1, if names[n] in known then pending
                       else pending + [names[n]], done, values)
  {
    hide Drawn;
    assert names[..n + 1] == names[..n] + [names[n]];
    ScanOne(known.Keys, names[..n], pending, done, names[n]);
  }

  lemma CollectedAll(c: Codec, files: map<nat, File>, known: map<nat, Metadata>, names: seq<nat>, done: set<nat>,
                     values: seq<Metadata>)
    requires Collecting(c, files, known, names, |names|, [], done, values) && Named(c, files, known)
    ensures Drawn(c, files, known, values, files.Keys) && Readable(c, files, known)
  {
    hide Drawn;
    assert names[..|names|] == names;
    assert done == files.Keys;
    DrawnIsReadable(c, files, known, values);
  }

  /** The rows of every artifact the base does not name, read in batches of 64, after those of the base. */
  method CollectNew(c: Codec, files: map<nat, File>, base: Option<Generation>, maxNames: nat, reused: seq<Metadata>,
                    ghost known: map<nat, Metadata>)
    returns (r: Option<seq<Metadata>>)
    requires base.Some? ==> Accepted(c, base.value, maxNames)
    requires forall n :: n in known <==> base.Some? && n in Keys(base.value)
    requires Drawn(c, files, known, reused, known.Keys) && Named(c, files, known)
    ensures r.Some? <==> |files| <= maxNames && Readable(c, files, known)
    ensures r.Some? ==> Drawn(c, files, known, r.value, files.Keys)
  {
    var names := List(files, maxNames);
    if names.None? {
      return None;
    }
    var values, pending: seq<nat> := reused, [];
    ghost var done := known.Keys;
    assert Collecting(c, files, known, names.value, 0, [], done, reused);
    for i := 0 to |names.value|
      invariant Collecting(c, files, known, names.value, i, pending, done, values)
    {
      CollectOne(c, files, known, names.value, i, pending, done, values);
      var reusable := IsKnown(c, base, maxNames, names.value[i]);
      if !reusable {
        pending := pending + [names.value[i]];
        if |pending| == BATCH {
          var more := FlushPending(c, files, pending, values, known, names.value, i + 1, done);
          if more.None? {
            return None;
          }
          values, done, pending := more.value, done + (set m | m in pending), [];
        }
      }
    }
    r := FlushPending(c, files, pending, values, known, names.value, |names.value|, done);
    if r.Some? {
      CollectedAll(c, files, known, names.value, done + (set m | m in pending), r.value);
    }
  }

  method IsKnown(c: Codec, base: Option<Generation>, maxNames: nat, name: nat) returns (known: bool)
    requires base.Some? ==> Accepted(c, base.value, maxNames)
    ensures known <==> base.Some? && name in Keys(base.value)
  {
    known := false;
    if base.Some? {
      known := Contains(base.value, name);
    }
  }

  lemma ScanPending(c: Codec, files: map<nat, File>, known: map<nat, Metadata>, names: seq<nat>, n: nat,
                    pending: seq<nat>, done: set<nat>)
    requires n <= |names| && Scanned(known.Keys, names[..n], pending, done)
    requires Enumerates(names, files.Keys)
    ensures forall i, j :: 0 <= i < j < |pending| ==> pending[i] != pending[j]
    ensures forall m :: m in pending ==> m !in done && m !in known
    ensures Readable(c, files, known) ==> forall i :: 0 <= i < |pending| ==> EnvelopeOf(c, files, pending[i]).Some?
  {
    forall m | m in pending ensures m in files.Keys {
      assert m in names[..n];
    }
  }

  lemma DrawnIsReadable(c: Codec, files: map<nat, File>, known: map<nat, Metadata>, values: seq<Metadata>)
    requires Drawn(c, files, known, values, files.Keys) && Named(c, files, known)
    ensures Readable(c, files, known)
  {
    forall n | n in files && n !in known ensures c.Faithful(n, files[n]) {
      assert n in NameKeys(c, values);
      var i :| 0 <= i < |values| && c.sha(values[i].key) == n;
      assert RowFor(c, files, known, n) == Some(values[i]);
    }
  }

  // ---- sorted runs ----

  /** One scratch line: name key, hash of the run for related rows, and the row's document. */
  datatype Entry = Entry(key: nat, relation: Option<Digest>, document: seq<byte>)

  function EntryOf(c: Codec, m: Metadata): (e: Entry) {
    Entry(c.sha(m.key), if IsRelatedRow(m) then Some(c.sha(m.run.value)) else None, Line(c, m))
  }

  function EntriesOf(c: Codec, rows: seq<Metadata>): (entries: seq<Entry>)
    ensures |entries| == |rows|
  {
    seq(|rows|, i requires 0 <= i < |rows| => EntryOf(c, rows[i]))
  }

  const EntryKey: Entry -> nat := (e: Entry) => e.key

  ghost predicate RowsFit(c: Codec, rows: seq<Metadata>) {
    RowsFitUpTo(c, rows, |rows|)
  }

  ghost predicate RowsFitUpTo(c: Codec, rows: seq<Metadata>, n: nat)
    requires n <= |rows|
  {
    forall i :: 0 <= i < n ==> |Line(c, rows[i])| <= MAX_ROW
  }

  method SpillRun(runs: seq<seq<Entry>>, chunk: seq<Entry>) returns (r: seq<seq<Entry>>)
    requires forall k :: 0 <= k < |runs| ==> SortedBy(EntryKey, runs[k])
    ensures forall k :: 0 <= k < |r| ==> SortedBy(EntryKey, r[k])
    ensures Contents(r) == Contents(runs) + multiset(chunk)
  {
    var run := Sorted(EntryKey, chunk);
    assert (runs + [run])[..|runs|] == runs;
    r := runs + [run];
  }

  lemma SpillStart(c: Codec, values: seq<Metadata>)
    ensures Contents<Entry>([]) == multiset{}
    ensures RowsFitUpTo(c, values, 0) && (RowsFitUpTo(c, values, |values|) <==> RowsFit(c, values))
  {
  }

  lemma SpillStep(c: Codec, values: seq<Metadata>, i: nat)
    requires i < |values| && RowsFitUpTo(c, values, i)
    ensures EntriesOf(c, values)[..i + 1] == EntriesOf(c, values)[..i] + [EntryOf(c, values[i])]
    ensures if |EntryOf(c, values[i]).document| <= MAX_ROW then RowsFitUpTo(c, values, i + 1) else !RowsFit(c, values)
  {
    hide Line;
  }

  /** Cut the inputs into chunks, sort each chunk and spill it as a run. */
  method SpillRuns(c: Codec, values: seq<Metadata>, count: nat) returns (r: Option<seq<seq<Entry>>>)
    ensures r.Some? <==> |values| == count && RowsFit(c, values)
    ensures r.Some? ==> (forall i :: 0 <= i < |r.value| ==> SortedBy(EntryKey, r.value[i]))
                        && Contents(r.value) == multiset(EntriesOf(c, values))
  {
    hide *;
    ghost var entries := EntriesOf(c, values);
    var runs: seq<seq<Entry>>, chunk: seq<Entry> := [], [];
    SpillStart(c, values);
    for i := 0 to |values|
      invariant i <= count && RowsFitUpTo(c, values, i)
      invariant forall k :: 0 <= k < |runs| ==> SortedBy(EntryKey, runs[k])
      invariant Contents(runs) + multiset(chunk) == multiset(entries[..i])
    {
      var entry := EntryOf(c, values[i]);
      SpillStep(c, values, i);
      if |entry.document| > MAX_ROW {
        return None;
      }
      chunk := chunk + [entry];
      if i + 1 > count {
        return None;
      }
      if |chunk| == CHUNK {
        runs := SpillRun(runs, chunk);
        chunk := [];
      }
    }
    assert entries[..|values|] == entries;
    if chunk != [] {
      runs := SpillRun(runs, chunk);
    }
    if |values| != count {
      return None;
    }
    r := Some(runs);
  }

  // ---- writing the tables ----

  /** The relation records in the order the merge meets them. */
  function RelationSeq(c: Codec, rows: seq<Metadata>): (records: seq<nat>) {
    if rows == [] then []
    else
      var m := |rows| - 1;
      RelationSeq(c, rows[..m]) + if IsRelatedRow(rows[m]) then [RelationKey(c, rows, m)] else []
  }

  /**
    The record of row `m` is one of the relation records, and no other record of a related row comes after the rows
    before it.
   */
  lemma RelationRow(c: Codec, rows: seq<Metadata>, m: nat)
    requires m < |rows| <= MAX_COUNT
    ensures RelationSeq(c, rows[..m + 1]) == RelationSeq(c, rows[..m]) + if IsRelatedRow(rows[m])
            then [RelationKey(c, rows, m)] else []
    ensures IsRelatedRow(rows[m]) ==> RelationKey(c, rows, m) in RelationSet(c, rows)
                                      && LowPart(RelationKey(c, rows, m)) == m
    ensures forall r :: r in RelationSet(c, rows) && LowPart(r) == m ==>
              IsRelatedRow(rows[m]) && r == RelationKey(c, rows, m)
  {
    assert rows[..m + 1][..m] == rows[..m];
    if IsRelatedRow(rows[m]) {
      PartsOfJoin(c.sha(rows[m].run.value), m);
      RelationMember(c, rows, RelationKey(c, rows, m));
    }
    forall r | r in RelationSet(c, rows) && LowPart(r) == m
      ensures IsRelatedRow(rows[m]) && r == RelationKey(c, rows, m)
    {
      RelationMember(c, rows, r);
    }
  }

  lemma {:induction false} RelationSeqMembers(c: Codec, rows: seq<Metadata>, n: nat)
    requires n <= |rows| <= MAX_COUNT
    ensures forall r :: r in RelationSeq(c, rows[..n]) <==> r in RelationSet(c, rows) && LowPart(r) < n
    ensures forall i, j :: 0 <= i < j < |RelationSeq(c, rows[..n])| ==>
              RelationSeq(c, rows[..n])[i] != RelationSeq(c, rows[..n])[j]
  {
    if n > 0 {
      var m := n - 1;
      RelationSeqMembers(c, rows, m);
      RelationRow(c, rows, m);
      hide RelationSet, RelationSeq, LowPart, RelationKey;
      var front := RelationSeq(c, rows[..m]);
      assert forall i :: 0 <= i < |front| ==> front[i] in front;
    } else {
      assert rows[..0] == [];
    }
  }

  const Itself: nat -> nat := (n: nat) => n

  /** The relation table: sorted chunks of records, merged. */
  lemma MergedRelations(c: Codec, rows: seq<Metadata>, merged: seq<nat>)
    requires |rows| <= MAX_COUNT
    requires SortedBy(Itself, merged) && multiset(merged) == multiset(RelationSeq(c, rows))
    ensures merged == SortedKeys(RelationSet(c, rows))
  {
    hide RelationSeq, RelationSet, SortedKeys;
    assert rows[..|rows|] == rows;
    RelationSeqMembers(c, rows, |rows|);
    SamePermutation(merged, RelationSeq(c, rows));
    forall r ensures r in merged <==> r in RelationSet(c, rows) {
      if r in RelationSet(c, rows) { RelationMember(c, rows, r); }
    }
    forall i, j | 0 <= i < j < |merged| ensures merged[i] < merged[j] {
      assert Itself(merged[i]) <= Itself(merged[j]);
    }
    SortedEnumerationIsUnique(merged, SortedKeys(RelationSet(c, rows)));
  }

  lemma SamePermutation<T>(a: seq<T>, b: seq<T>)
    requires multiset(a) == multiset(b)
    requires forall i, j :: 0 <= i < j < |b| ==> b[i] != b[j]
    ensures forall x :: x in a <==> x in b
    ensures forall i, j :: 0 <= i < j < |a| ==> a[i] != a[j]
  {
    assert forall x :: x in a <==> x in multiset(a);
    assert forall x :: x in b <==> x in multiset(b);
    DistinctMultiset(b);
    forall i, j | 0 <= i < j < |a| ensures a[i] != a[j] {
      NoRepeats(a, i, j);
    }
  }

  lemma {:induction false} DistinctMultiset<T>(s: seq<T>)
    requires forall i, j :: 0 <= i < j < |s| ==> s[i] != s[j]
    ensures forall x :: multiset(s)[x] <= 1
  {
    if s != [] {
      var m := |s| - 1;
      assert s == s[..m] + [s[m]];
      DistinctMultiset(s[..m]);
      assert s[m] !in s[..m];
    }
  }

  lemma NoRepeats<T>(s: seq<T>, i: nat, j: nat)
    requires forall x :: multiset(s)[x] <= 1
    requires i < j < |s|
    ensures s[i] != s[j]
  {
    assert s == s[..j] + s[j..];
    assert s[i] in multiset(s[..j]) by { assert s[..j][i] == s[i]; }
    assert s[j] in multiset(s[j..]) by { assert s[j..][0] == s[j]; }
    assert multiset(s)[s[i]] == multiset(s[..j])[s[i]] + multiset(s[j..])[s[i]];
  }

  /** The three tables after the rows written so far. */
  ghost predicate Written(c: Codec, rows: seq<Metadata>, names: seq<byte>, bytes: seq<byte>, offsets: seq<byte>) {
    && names == Pack(NameKeys(c, rows), 32)
    && bytes == RowBytes(c, rows)
    && offsets == Pack(OffsetRecords(c, rows), 12)
    && |bytes| <= MAX_BYTES
  }

  lemma PackAppend(records: seq<nat>, record: nat, width: nat)
    ensures Pack(records + [record], width) == Pack(records, width) + BigEndian(record, width)
  {
    assert (records + [record])[..|records|] == records;
  }

  lemma KeysAppend(c: Codec, rows: seq<Metadata>, i: nat)
    requires i < |rows|
    ensures NameKeys(c, rows[..i + 1]) == NameKeys(c, rows[..i]) + [c.sha(rows[i].key)]
  {
  }

  lemma OffsetsAppend(c: Codec, rows: seq<Metadata>, i: nat)
    requires i < |rows|
    ensures OffsetRecords(c, rows[..i + 1]) == OffsetRecords(c, rows[..i])
            + [Join(|RowBytes(c, rows[..i])|, |Line(c, rows[i])|)]
  {
    hide RowBytes, Line;
    var front, all := rows[..i], rows[..i + 1];
    forall k | 0 <= k <= i ensures all[..k] == if k < i then front[..k] else front {
    }
  }

  lemma WriteOne(c: Codec, rows: seq<Metadata>, i: nat, names: seq<byte>, bytes: seq<byte>, offsets: seq<byte>)
    requires i < |rows| && Written(c, rows[..i], names, bytes, offsets)
    requires |Line(c, rows[i])| <= MAX_ROW && |bytes| + |Line(c, rows[i])| <= MAX_BYTES
    ensures Written(c, rows[..i + 1], names + BigEndian(c.sha(rows[i].key), 32), bytes + Line(c, rows[i]),
                    offsets + (BigEndian(|bytes|, 8) + BigEndian(|Line(c, rows[i])|, 4)))
  {
    hide BigEndian, Pack, NameKeys, OffsetRecords, Line;
    KeysAppend(c, rows, i);
    PackAppend(NameKeys(c, rows[..i]), c.sha(rows[i].key), 32);
    OffsetsAppend(c, rows, i);
    PackAppend(OffsetRecords(c, rows[..i]), Join(|bytes|, |Line(c, rows[i])|), 12);
    PackOffset(|bytes|, |Line(c, rows[i])|);
    assert rows[..i + 1][..i] == rows[..i];
  }

  lemma PackOffset(offset: nat, length: nat)
    requires offset <= MAX_BYTES && length <= MAX_ROW
    ensures BigEndian(offset, 8) + BigEndian(length, 4) == BigEndian(Join(offset, length), 12)
  {
    hide BigEndian;
    WordIsFourBytes();
    Pow256Add(4, 4);
    BigEndianPair(offset, 8, length, 4);
  }

  lemma RowBytesGrow(c: Codec, rows: seq<Metadata>, n: nat)
    requires n <= |rows|
    ensures |RowBytes(c, rows[..n])| <= |RowBytes(c, rows)|
  {
    if n < |rows| {
      RowBytesPrefix(c, rows, n);
    } else {
      assert rows[..n] == rows;
    }
  }

  method WriteRelations(runs: seq<seq<nat>>) returns (table: seq<byte>, ghost merged: seq<nat>)
    requires forall k :: 0 <= k < |runs| ==> SortedBy(Itself, runs[k])
    ensures SortedBy(Itself, merged) && multiset(merged) == Contents(runs)
    ensures table == Pack(merged, 36)
  {
    var records := Merge(Itself, runs);
    table := [];
    for i := 0 to |records|
      invariant table == Pack(records[..i], 36)
    {
      assert records[..i + 1][..i] == records[..i];
      table := table + BigEndian(records[i], 36);
    }
    assert records[..|records|] == records;
    merged := records;
  }

  ghost predicate StrictUpTo(c: Codec, rows: seq<Metadata>, n: nat)
    requires n <= |rows|
  {
    forall i :: 0 < i < n ==> c.sha(rows[i - 1].key) < c.sha(rows[i].key)
  }

  lemma {:induction false} StrictAdjacent(c: Codec, rows: seq<Metadata>, i: nat, j: nat)
    requires StrictUpTo(c, rows, |rows|) && i < j < |rows|
    ensures NameKeys(c, rows)[i] < NameKeys(c, rows)[j]
  {
    assert c.sha(rows[j - 1].key) < c.sha(rows[j].key);
    if i < j - 1 {
      StrictAdjacent(c, rows, i, j - 1);
    }
  }

  lemma StrictNames(c: Codec, rows: seq<Metadata>)
    ensures StrictUpTo(c, rows, |rows|) <==> StrictlyIncreasing(NameKeys(c, rows))
  {
    var keys := NameKeys(c, rows);
    if StrictUpTo(c, rows, |rows|) {
      forall i, j | 0 <= i < j < |rows| ensures keys[i] < keys[j] {
        StrictAdjacent(c, rows, i, j);
      }
    }
    if StrictlyIncreasing(keys) {
      forall i | 0 < i < |rows| ensures c.sha(rows[i - 1].key) < c.sha(rows[i].key) {
        assert keys[i - 1] < keys[i];
      }
    }
  }

  /** The output streams and counters of a table write. */
  datatype Writer = Writer(previous: Option<nat>, names: seq<byte>, bytes: seq<byte>, offsets: seq<byte>,
                           related: nat, relationRuns: seq<seq<nat>>, relationChunk: seq<nat>)

  ghost predicate RelationsSpilled(c: Codec, rows: seq<Metadata>, w: Writer) {
    && w.related == |RelationSeq(c, rows)|
    && (forall k :: 0 <= k < |w.relationRuns| ==> SortedBy(Itself, w.relationRuns[k]))
    && Contents(w.relationRuns) + multiset(w.relationChunk) == multiset(RelationSeq(c, rows))
  }

  ghost predicate WriterAt(c: Codec, rows: seq<Metadata>, i: nat, w: Writer) {
    && i <= |rows|
    && w.previous == (if i == 0 then None else Some(c.sha(rows[i - 1].key)))
    && StrictUpTo(c, rows, i)
    && Written(c, rows[..i], w.names, w.bytes, w.offsets)
    && RelationsSpilled(c, rows[..i], w)
  }

  method SpillRelations(c: Codec, w: Writer, ghost rows: seq<Metadata>) returns (w': Writer)
    requires RelationsSpilled(c, rows, w)
    ensures RelationsSpilled(c, rows, w') && w'.relationChunk == []
    ensures w' == w.(relationRuns := w'.relationRuns, relationChunk := [])
  {
    var run := Sorted(Itself, w.relationChunk);
    assert (w.relationRuns + [run])[..|w.relationRuns|] == w.relationRuns;
    w' := w.(relationRuns := w.relationRuns + [run], relationChunk := []);
  }

  method AddRelation(c: Codec, w: Writer, relation: Option<Digest>, ghost rows: seq<Metadata>, i: nat)
    returns (w': Writer)
    requires i < |rows| && RelationsSpilled(c, rows[..i], w) && relation == EntryOf(c, rows[i]).relation
    ensures RelationsSpilled(c, rows[..i + 1], w')
    ensures w' == w.(related := w'.related, relationRuns := w'.relationRuns, relationChunk := w'.relationChunk)
  {
    assert rows[..i + 1][..i] == rows[..i];
    w' := w;
    if relation.Some? {
      w' := w.(relationChunk := w.relationChunk + [Join(relation.value, i)], related := w.related + 1);
      if |w'.relationChunk| == CHUNK {
        w' := SpillRelations(c, w', rows[..i + 1]);
      }
    }
  }

  /** The writes themselves, once the entry is known to be in order and to fit. */
  method AppendEntry(c: Codec, w: Writer, entry: Entry, ghost rows: seq<Metadata>, i: nat) returns (w': Writer)
    requires i < |rows| && WriterAt(c, rows, i, w) && StrictUpTo(c, rows, i + 1)
    requires entry == EntryOf(c, rows[i]) && |Line(c, rows[i])| <= MAX_ROW && |w.bytes| + |entry.document| <= MAX_BYTES
    ensures WriterAt(c, rows, i + 1, w')
  {
    WriteOne(c, rows, i, w.names, w.bytes, w.offsets);
    w' := AddRelation(c, w, entry.relation, rows, i);
    w' := w'.(previous := Some(entry.key),
              names := w.names + BigEndian(entry.key, 32),
              offsets := w.offsets + (BigEndian(|w.bytes|, 8) + BigEndian(|entry.document|, 4)),
              bytes := w.bytes + entry.document);
  }

  lemma BytesSoFar(c: Codec, rows: seq<Metadata>, i: nat, w: Writer)
    requires i < |rows| && WriterAt(c, rows, i, w)
    ensures |w.bytes| + |Line(c, rows[i])| <= |RowBytes(c, rows)|
  {
    RowBytesGrow(c, rows, i + 1);
    assert rows[..i + 1][..i] == rows[..i];
  }

  lemma StrictSoFar(c: Codec, rows: seq<Metadata>, i: nat, w: Writer)
    requires i < |rows| && WriterAt(c, rows, i, w)
    ensures StrictUpTo(c, rows, i + 1) <==> (w.previous.Some? ==> w.previous.value < c.sha(rows[i].key))
  {
  }

  /** Write one merged line to the name, row, offset and relation outputs. */
  method WriteEntry(c: Codec, w: Writer, entry: Entry, ghost rows: seq<Metadata>, i: nat) returns (r: Option<Writer>)
    requires i < |rows| && WriterAt(c, rows, i, w)
    requires entry == EntryOf(c, rows[i]) && |Line(c, rows[i])| <= MAX_ROW
    ensures r.Some? ==> WriterAt(c, rows, i + 1, r.value)
    ensures r.None? ==> !StrictUpTo(c, rows, i + 1) || |RowBytes(c, rows)| > MAX_BYTES
  {
    BytesSoFar(c, rows, i, w);
    StrictSoFar(c, rows, i, w);
    if w.previous.Some? && entry.key <= w.previous.value {
      return None;
    }
    if |w.bytes| + |entry.document| > MAX_BYTES {
      return None;
    }
    var w' := AppendEntry(c, w, entry, rows, i);
    r := Some(w');
  }

  lemma StrictSoFarOnly(c: Codec, rows: seq<Metadata>, n: nat)
    requires n <= |rows| && !StrictUpTo(c, rows, n)
    ensures !StrictlyIncreasing(NameKeys(c, rows))
  {
    StrictNames(c, rows);
  }

  lemma AllWritten(c: Codec, rows: seq<Metadata>, w: Writer)
    requires WriterAt(c, rows, |rows|, w)
    ensures StrictlyIncreasing(NameKeys(c, rows)) && Written(c, rows, w.names, w.bytes, w.offsets)
            && RelationsSpilled(c, rows, w)
  {
    StrictNames(c, rows);
    assert rows[..|rows|] == rows;
  }

  lemma NothingWritten(c: Codec, rows: seq<Metadata>)
    ensures WriterAt(c, rows, 0, Writer(None, [], [], [], 0, [], []))
  {
  }

  /** The loop over the merged entries: refused for two entries with one key, or for too many row bytes. */
  method WriteEntries(c: Codec, entries: seq<Entry>, ghost rows: seq<Metadata>) returns (r: Option<Writer>)
    requires entries == EntriesOf(c, rows) && |rows| <= MAX_COUNT && RowsFit(c, rows)
    ensures r.Some? <==> StrictlyIncreasing(NameKeys(c, rows)) && |RowBytes(c, rows)| <= MAX_BYTES
    ensures r.Some? ==> Written(c, rows, r.value.names, r.value.bytes, r.value.offsets)
                        && RelationsSpilled(c, rows, r.value)
  {
    hide WriterAt, StrictlyIncreasing, Written, NameKeys, RowBytes, StrictUpTo, RelationsSpilled, Line;
    var w := Writer(None, [], [], [], 0, [], []);
    NothingWritten(c, rows);
    for i := 0 to |entries|
      invariant WriterAt(c, rows, i, w)
    {
      var next := WriteEntry(c, w, entries[i], rows, i);
      if next.None? {
        if !StrictUpTo(c, rows, i + 1) {
          StrictSoFarOnly(c, rows, i + 1);
        }
        return None;
      }
      w := next.value;
    }
    AllWritten(c, rows, w);
    r := Some(w);
  }

  /**
    Write the merged entries out as tables. Refused exactly when two entries share a key, the rows
    exceed the size limit, or their number is not the inventory's.
   */
  method WriteTables(c: Codec, entries: seq<Entry>, count: nat, ghost rows: seq<Metadata>)
    returns (r: Option<Generation>)
    requires entries == EntriesOf(c, rows) && |rows| <= MAX_COUNT && RowsFit(c, rows)
    ensures r.Some? <==> StrictlyIncreasing(NameKeys(c, rows)) && |rows| == count && |RowBytes(c, rows)| <= MAX_BYTES
    ensures r.Some? ==> r.value == Tables(c, rows)
  {
    var written := WriteEntries(c, entries, rows);
    if written.None? || |entries| != count {
      return None;
    }
    var w := written.value;
    if w.relationChunk != [] {
      w := SpillRelations(c, w, rows);
    }
    var relations, merged := WriteRelations(w.relationRuns);
    MergedRelations(c, rows, merged);
    RelationTotal(c, rows, merged, w.related);
    var manifest := Manifest(2, count, |w.bytes|, w.related, c.fileSha(w.names), c.fileSha(w.bytes),
                             c.fileSha(w.offsets), c.fileSha(relations));
    r := Some(Generation(manifest, w.names, w.bytes, w.offsets, relations));
  }

  lemma RelationTotal(c: Codec, rows: seq<Metadata>, merged: seq<nat>, related: nat)
    requires merged == SortedKeys(RelationSet(c, rows))
    requires multiset(merged) == multiset(RelationSeq(c, rows)) && related == |RelationSeq(c, rows)|
    ensures related == |RelationSet(c, rows)|
  {
    assert |merged| == |multiset(merged)| == |multiset(RelationSeq(c, rows))|;
  }

  // ---- the build ----

  /** What an inventory must satisfy to be indexed. */
  ghost predicate Buildable(c: Codec, files: map<nat, File>, maxNames: nat) {
    && |files| <= maxNames && |files| <= MAX_COUNT
    && c.FaithfulInventory(files)
    && RowsFit(c, InventoryRows(c, files))
    && |RowBytes(c, InventoryRows(c, files))| <= MAX_BYTES
  }

  /** The same for a build that reuses rows. */
  ghost predicate BuildableFrom(c: Codec, files: map<nat, File>, known: map<nat, Metadata>, maxNames: nat) {
    && |files| <= maxNames && |files| <= MAX_COUNT
    && Readable(c, files, known)
    && RowsFit(c, BuiltRows(c, files, known))
    && |RowBytes(c, BuiltRows(c, files, known))| <= MAX_BYTES
  }

  /** The inputs of a build: the base's rows and the new envelopes, or every envelope when there is no base. */
  method Inputs(c: Codec, files: map<nat, File>, base: Option<Generation>, maxNames: nat)
    returns (r: Option<seq<Metadata>>)
    ensures r.Some? <==> |files| <= maxNames && BaseReusable(c, files, base, maxNames)
                         && Readable(c, files, Reused(c, files, base, maxNames))
    ensures r.Some? ==> var known := Reused(c, files, base, maxNames);
                        Drawn(c, files, known, r.value, files.Keys) && Named(c, files, known)
  {
    hide Readable, Drawn, Reusable, BaseRows, Accepted;
    var reused: seq<Metadata> := [];
    if base.Some? {
      var rows := ReuseBase(c, files, base.value, maxNames);
      if rows.None? {
        return None;
      }
      reused := rows.value;
      ReusedIsDrawn(c, files, base.value, maxNames);
      ReusableIsAccepted(c, files, base.value, maxNames);
    } else {
      NothingReused(c, files, maxNames);
    }
    r := CollectNew(c, files, base, maxNames, reused, Reused(c, files, base, maxNames));
  }

  lemma ReusableIsAccepted(c: Codec, files: map<nat, File>, g: Generation, maxNames: nat)
    requires Reusable(c, files, g, maxNames)
    ensures Accepted(c, g, maxNames)
  {
  }

  lemma NothingReused(c: Codec, files: map<nat, File>, maxNames: nat)
    ensures var known := Reused(c, files, None, maxNames);
            known == map[] && Named(c, files, known) && Drawn(c, files, known, [], known.Keys)
  {
  }

  /** Rows that enumerate the inventory in key order are the built rows. */
  lemma SortedRowsAreBuilt(c: Codec, files: map<nat, File>, known: map<nat, Metadata>, rows: seq<Metadata>)
    requires Readable(c, files, known)
    requires StrictlyIncreasing(NameKeys(c, rows))
    requires forall k :: k in NameKeys(c, rows) <==> k in files
    requires forall i :: 0 <= i < |rows| ==> RowFor(c, files, known, c.sha(rows[i].key)) == Some(rows[i])
    ensures rows == BuiltRows(c, files, known)
  {
    var expected := BuiltRows(c, files, known);
    SortedEnumerationIsUnique(NameKeys(c, rows), SortedKeys(files.Keys));
    forall i | 0 <= i < |rows| ensures rows[i] == expected[i] {
      assert NameKeys(c, rows)[i] == NameKeys(c, expected)[i];
    }
  }

  /** The rows behind the merged entries. */
  lemma RowsBehind(c: Codec, values: seq<Metadata>, entries: seq<Entry>) returns (rows: seq<Metadata>)
    requires forall e :: e in entries ==> e in EntriesOf(c, values)
    ensures EntriesOf(c, rows) == entries
    ensures forall m :: m in rows ==> m in values
  {
    rows := [];
    for i := 0 to |entries|
      invariant EntriesOf(c, rows) == entries[..i]
      invariant forall m :: m in rows ==> m in values
    {
      assert entries[i] in EntriesOf(c, values);
      var k :| 0 <= k < |values| && EntriesOf(c, values)[k] == entries[i];
      rows := rows + [values[k]];
      assert entries[..i + 1] == entries[..i] + [entries[i]];
    }
  }

  lemma EntryMember(c: Codec, rows: seq<Metadata>, k: nat)
    ensures k in NameKeys(c, rows) <==> exists e :: e in EntriesOf(c, rows) && e.key == k
  {
    if k in NameKeys(c, rows) {
      var i :| 0 <= i < |rows| && NameKeys(c, rows)[i] == k;
      assert EntriesOf(c, rows)[i] in EntriesOf(c, rows);
    }
    if e :| e in EntriesOf(c, rows) && e.key == k {
      var i :| 0 <= i < |rows| && EntriesOf(c, rows)[i] == e;
      assert NameKeys(c, rows)[i] in NameKeys(c, rows);
    }
  }

  lemma DistinctEntries(c: Codec, values: seq<Metadata>, names: set<nat>)
    requires Enumerates(NameKeys(c, values), names)
    ensures forall i, j :: 0 <= i < j < |values| ==> EntriesOf(c, values)[i] != EntriesOf(c, values)[j]
    ensures forall m, n :: m in values && n in values && c.sha(m.key) == c.sha(n.key) ==> m == n
  {
    forall i, j | 0 <= i < j < |values| ensures c.sha(values[i].key) != c.sha(values[j].key) {
      assert NameKeys(c, values)[i] != NameKeys(c, values)[j];
    }
  }

  /** Sorted entries of distinct keys are the inventory's rows in strict name order. */
  lemma MergedRows(c: Codec, files: map<nat, File>, known: map<nat, Metadata>, values: seq<Metadata>,
                   entries: seq<Entry>, rows: seq<Metadata>)
    requires Drawn(c, files, known, values, files.Keys) && Named(c, files, known)
    requires SortedBy(EntryKey, entries) && multiset(entries) == multiset(EntriesOf(c, values))
    requires EntriesOf(c, rows) == entries && forall m :: m in rows ==> m in values
    ensures Readable(c, files, known) && rows == BuiltRows(c, files, known)
  {
    hide Line, BuiltRows, RowFor;
    DrawnIsReadable(c, files, known, values);
    DistinctEntries(c, values, files.Keys);
    SamePermutation(entries, EntriesOf(c, values));
    forall k ensures k in NameKeys(c, rows) <==> k in files {
      EntryMember(c, rows, k);
      EntryMember(c, values, k);
    }
    forall i, j | 0 <= i < j < |rows| ensures NameKeys(c, rows)[i] < NameKeys(c, rows)[j] {
      assert EntryKey(entries[i]) <= EntryKey(entries[j]);
      assert rows[i] in values && rows[j] in values && entries[i] != entries[j];
    }
    forall i | 0 <= i < |rows| ensures RowFor(c, files, known, c.sha(rows[i].key)) == Some(rows[i]) {
      assert rows[i] in values;
    }
    SortedRowsAreBuilt(c, files, known, rows);
  }

  lemma SameMembers(a: seq<Entry>, b: seq<Entry>)
    requires multiset(a) == multiset(b)
    ensures forall e :: e in a <==> e in b
  {
    assert forall e :: e in a <==> e in multiset(a);
    assert forall e :: e in b <==> e in multiset(b);
  }

  /**
    An index build, over any base whatever its rows say. It publishes a generation exactly when the base can be
    reused and every other artifact read and indexed; what it publishes are the tables of the inventory with the
    reused rows in their places, in whatever order the directory is scanned.
   */
  method Build(c: Codec, files: map<nat, File>, latest: Option<Generation>, force: bool, maxNames: nat)
    returns (r: Option<Generation>)
    requires c.Valid()
    ensures var base := if force then None else latest;
            r.Some? <==> BaseReusable(c, files, base, maxNames)
                         && BuildableFrom(c, files, Reused(c, files, base, maxNames), maxNames)
    ensures r.Some? ==> var rows := BuiltRows(c, files, Reused(c, files, if force then None else latest, maxNames));
                        r.value == Tables(c, rows) && Indexable(c, rows) && Accepted(c, r.value, maxNames)
  {
    hide Tables, Accepted, RowsFit, RowBytes, Reused, Reusable;
    var names := List(files, maxNames);
    if names.None? {
      return None;
    }
    var count := |names.value|;
    if count > MAX_COUNT {
      return None;
    }
    var base := if force then None else latest;
    var values := Inputs(c, files, base, maxNames);
    if values.None? {
      return None;
    }
    ghost var known := Reused(c, files, base, maxNames);
    DrawnCount(c, files, known, values.value);
    var runs := SpillRuns(c, values.value, count);
    BuiltFits(c, files, known, values.value);
    if runs.None? {
      return None;
    }
    var entries := Merge(EntryKey, runs.value);
    SameMembers(entries, EntriesOf(c, values.value));
    ghost var rows := RowsBehind(c, values.value, entries);
    MergedRows(c, files, known, values.value, entries, rows);
    BuiltStrict(c, files, known);
    r := WriteTables(c, entries, count, rows);
    if r.Some? {
      ReusedHaveRuns(c, files, base, maxNames);
      BuiltIndexable(c, files, known);
      TablesAccepted(c, rows, maxNames);
    }
  }

  lemma DrawnCount(c: Codec, files: map<nat, File>, known: map<nat, Metadata>, values: seq<Metadata>)
    requires Drawn(c, files, known, values, files.Keys) && Named(c, files, known)
    ensures |values| == |files| && Readable(c, files, known)
  {
    Enumeration.EnumerationLength(NameKeys(c, values), files.Keys);
    DrawnIsReadable(c, files, known, values);
  }

  /** Whether every row fits does not depend on the order the rows were collected in. */
  lemma BuiltFits(c: Codec, files: map<nat, File>, known: map<nat, Metadata>, values: seq<Metadata>)
    requires Drawn(c, files, known, values, files.Keys) && Readable(c, files, known)
    ensures RowsFit(c, values) <==> RowsFit(c, BuiltRows(c, files, known))
  {
    var rows := BuiltRows(c, files, known);
    forall i | 0 <= i < |values| ensures values[i] in rows {
      ValueIsRow(c, files, known, values, i);
    }
    forall k | 0 <= k < |rows| ensures rows[k] in values {
      RowIsValue(c, files, known, values, k);
    }
    hide Drawn, BuiltRows;
    FitAmong(c, values, rows);
    FitAmong(c, rows, values);
  }

  lemma FitAmong(c: Codec, some: seq<Metadata>, all: seq<Metadata>)
    requires forall i :: 0 <= i < |some| ==> some[i] in all
    ensures RowsFit(c, all) ==> RowsFit(c, some)
  {
    hide Line;
  }

  lemma ValueIsRow(c: Codec, files: map<nat, File>, known: map<nat, Metadata>, values: seq<Metadata>, i: nat)
    requires Drawn(c, files, known, values, files.Keys) && Readable(c, files, known) && i < |values|
    ensures values[i] in BuiltRows(c, files, known)
  {
    assert NameKeys(c, values)[i] in NameKeys(c, values);
    var k :| 0 <= k < |files| && SortedKeys(files.Keys)[k] == c.sha(values[i].key);
    assert BuiltRows(c, files, known)[k] == values[i];
  }

  lemma IndexOfName(c: Codec, files: map<nat, File>, known: map<nat, Metadata>, values: seq<Metadata>, name: nat)
    returns (i: nat)
    requires Drawn(c, files, known, values, files.Keys) && name in files
    ensures i < |values| && c.sha(values[i].key) == name && RowFor(c, files, known, name) == Some(values[i])
  {
    assert name in NameKeys(c, values);
    i :| 0 <= i < |values| && NameKeys(c, values)[i] == name;
  }

  lemma RowIsValue(c: Codec, files: map<nat, File>, known: map<nat, Metadata>, values: seq<Metadata>, k: nat)
    requires Drawn(c, files, known, values, files.Keys) && Readable(c, files, known) && k < |files|
    ensures BuiltRows(c, files, known)[k] in values
  {
    var name := SortedKeys(files.Keys)[k];
    assert name in SortedKeys(files.Keys);
    var i := IndexOfName(c, files, known, values, name);
  }

  lemma BuiltStrict(c: Codec, files: map<nat, File>, known: map<nat, Metadata>)
    requires Readable(c, files, known)
    ensures StrictlyIncreasing(NameKeys(c, BuiltRows(c, files, known)))
  {
  }

  /** No reused row is outdated any more. */
  ghost predicate HaveRuns(known: map<nat, Metadata>) {
    forall n :: n in known && known[n].kind.Related() ==> known[n].run.Some?
  }

  lemma ReusedHaveRuns(c: Codec, files: map<nat, File>, base: Option<Generation>, maxNames: nat)
    requires BaseReusable(c, files, base, maxNames)
    ensures HaveRuns(Reused(c, files, base, maxNames))
  {
    if base.Some? {
      forall m | m in BaseRows(c, files, base.value, maxNames) ensures m.kind.Related() ==> m.run.Some? {
        BaseRowHasRun(c, files, base.value, maxNames, m);
      }
      hide BaseRows, Reusable;
    }
  }

  lemma BaseRowHasRun(c: Codec, files: map<nat, File>, g: Generation, maxNames: nat, m: Metadata)
    requires Reusable(c, files, g, maxNames) && m in BaseRows(c, files, g, maxNames)
    ensures m.kind.Related() ==> m.run.Some?
  {
    var rows := ParseRows(c, Keys(g), g.rows).value;
    var i :| 0 <= i < |rows| && BaseRows(c, files, g, maxNames)[i] == m;
    assert rows[i] in rows;
  }

  lemma BuiltRowHasRun(c: Codec, files: map<nat, File>, known: map<nat, Metadata>, name: nat)
    requires Readable(c, files, known) && HaveRuns(known) && name in files
    ensures BuiltRow(c, files, known, name).kind.Related() ==> BuiltRow(c, files, known, name).run.Some?
  {
  }

  lemma BuiltRowAt(c: Codec, files: map<nat, File>, known: map<nat, Metadata>, i: nat)
    requires Readable(c, files, known) && i < |files|
    ensures SortedKeys(files.Keys)[i] in files
    ensures BuiltRows(c, files, known)[i] == BuiltRow(c, files, known, SortedKeys(files.Keys)[i])
  {
    assert SortedKeys(files.Keys)[i] in SortedKeys(files.Keys);
  }

  lemma FitIsIndexable(c: Codec, rows: seq<Metadata>)
    requires |rows| <= MAX_COUNT && StrictlyIncreasing(NameKeys(c, rows)) && RowsFit(c, rows)
             && |RowBytes(c, rows)| <= MAX_BYTES
    requires forall i :: 0 <= i < |rows| ==> rows[i].kind.Related() ==> rows[i].run.Some?
    ensures Indexable(c, rows)
  {
    hide RowBytes, Line, NameKeys, StrictlyIncreasing;
  }

  lemma BuiltIndexable(c: Codec, files: map<nat, File>, known: map<nat, Metadata>)
    requires Readable(c, files, known) && HaveRuns(known) && |files| <= MAX_COUNT
    requires RowsFit(c, BuiltRows(c, files, known)) && |RowBytes(c, BuiltRows(c, files, known))| <= MAX_BYTES
    ensures Indexable(c, BuiltRows(c, files, known))
  {
    var rows := BuiltRows(c, files, known);
    BuiltStrict(c, files, known);
    hide BuiltRows, BuiltRow, HaveRuns, Readable, RowsFit, RowBytes, Indexable;
    forall i | 0 <= i < |rows| ensures rows[i].kind.Related() ==> rows[i].run.Some? {
      BuiltRowAt(c, files, known, i);
      BuiltRowHasRun(c, files, known, SortedKeys(files.Keys)[i]);
    }
    FitIsIndexable(c, rows);
  }

  lemma EveryArtifact(c: Codec, files: map<nat, File>)
    ensures Agreeing(c, files, map[]) && HaveRuns(map[])
  {
  }

  lemma SameRows(c: Codec, files: map<nat, File>, known: map<nat, Metadata>)
    requires Agreeing(c, files, known) && c.FaithfulInventory(files)
    ensures Readable(c, files, known) && BuiltRows(c, files, known) == InventoryRows(c, files)
  {
    var built, rows := BuiltRows(c, files, known), InventoryRows(c, files);
    forall i | 0 <= i < |files| ensures built[i] == rows[i] {
      BuiltRowAt(c, files, known, i);
    }
  }

  /** Reused rows that agree with their artifacts make no difference. */
  lemma SameBuild(c: Codec, files: map<nat, File>, known: map<nat, Metadata>, maxNames: nat)
    requires Agreeing(c, files, known)
    ensures Readable(c, files, known) <==> c.FaithfulInventory(files)
    ensures c.FaithfulInventory(files) ==> BuiltRows(c, files, known) == InventoryRows(c, files)
    ensures BuildableFrom(c, files, known, maxNames) <==> Buildable(c, files, maxNames)
  {
    if c.FaithfulInventory(files) {
      SameRows(c, files, known);
    }
    assert Readable(c, files, known) ==> c.FaithfulInventory(files);
  }

  /** Over artifacts that can all be read, reused rows make no difference only if they are the artifacts' metadata. */
  lemma SameTables(c: Codec, files: map<nat, File>, known: map<nat, Metadata>)
    requires c.Valid() && c.FaithfulInventory(files) && Named(c, files, known)
    requires Indexable(c, BuiltRows(c, files, known)) && Indexable(c, InventoryRows(c, files))
    ensures Tables(c, BuiltRows(c, files, known)) == Tables(c, InventoryRows(c, files)) <==> Agreeing(c, files, known)
  {
    var built, rows := BuiltRows(c, files, known), InventoryRows(c, files);
    if Agreeing(c, files, known) {
      SameBuild(c, files, known, 0);
    }
    if Tables(c, built) == Tables(c, rows) {
      TableRows(c, built);
      TableRows(c, rows);
      hide Tables, Indexable;
      forall n | n in known ensures EnvelopeOf(c, files, n) == Some(known[n]) {
        SameRow(c, files, known, n);
      }
    }
  }

  lemma SameRow(c: Codec, files: map<nat, File>, known: map<nat, Metadata>, name: nat)
    requires c.FaithfulInventory(files) && Named(c, files, known) && name in known
    requires BuiltRows(c, files, known) == InventoryRows(c, files)
    ensures EnvelopeOf(c, files, name) == Some(known[name])
  {
    assert name in SortedKeys(files.Keys);
    var i :| 0 <= i < |files| && SortedKeys(files.Keys)[i] == name;
    BuiltRowAt(c, files, known, i);
  }

  /** Artifacts are immutable and never removed. */
  ghost predicate GrownFrom(before: map<nat, File>, after: map<nat, File>) {
    forall n :: n in before ==> n in after && after[n] == before[n]
  }

  /** A generation built over an earlier inventory is a faithful and usable base for any later one. */
  lemma BuiltBaseIsUsable(c: Codec, before: map<nat, File>, after: map<nat, File>, maxNames: nat)
    requires c.Valid() && c.FaithfulInventory(before) && GrownFrom(before, after)
    requires Indexable(c, InventoryRows(c, before)) && |before| <= maxNames
    ensures var g := Tables(c, InventoryRows(c, before));
            Accepted(c, g, maxNames) && FaithfulBase(c, after, g) && BaseUsable(c, after, g, maxNames)
  {
    hide Tables, Accepted, Indexable, ParseRows, Keys;
    var rows := InventoryRows(c, before);
    TablesAccepted(c, rows, maxNames);
    TableRows(c, rows);
    forall i | 0 <= i < |rows|
      ensures c.sha(rows[i].key) in after
      ensures c.Faithful(c.sha(rows[i].key), after[c.sha(rows[i].key)])
              && c.Matches(after[c.sha(rows[i].key)].artifact, rows[i])
    {
      assert SortedKeys(before.Keys)[i] in SortedKeys(before.Keys);
      assert c.Faithful(SortedKeys(before.Keys)[i], before[SortedKeys(before.Keys)[i]]);
    }
    forall k | k in NameKeys(c, rows) ensures k in after {
      assert k in SortedKeys(before.Keys);
    }
  }

  /** What a forced rebuild of this inventory would publish, and whether it would. */
  ghost predicate Rebuilt(c: Codec, files: map<nat, File>, maxNames: nat, g: Option<Generation>) {
    && (g.Some? <==> Buildable(c, files, maxNames))
    && (g.Some? ==> g.value == Tables(c, InventoryRows(c, files)))
  }

  lemma RebuiltIsUsable(c: Codec, before: map<nat, File>, after: map<nat, File>, maxNames: nat, g: Generation)
    requires c.Valid() && Rebuilt(c, before, maxNames, Some(g)) && GrownFrom(before, after)
    ensures Accepted(c, g, maxNames) && FaithfulBase(c, after, g) && BaseUsable(c, after, g, maxNames)
  {
    hide Tables, Accepted, Indexable, FaithfulBase, BaseUsable, RowsFit, RowBytes;
    EveryArtifact(c, before);
    SameBuild(c, before, map[], maxNames);
    BuiltIndexable(c, before, map[]);
    BuiltBaseIsUsable(c, before, after, maxNames);
  }

  /** A refresh over a generation that an earlier build of this inventory published. */
  method Refresh(c: Codec, files: map<nat, File>, latest: Option<Generation>, maxNames: nat,
                 ghost before: map<nat, File>)
    returns (r: Option<Generation>)
    requires c.Valid() && (latest.Some? ==> Rebuilt(c, before, maxNames, latest) && GrownFrom(before, files))
    ensures Rebuilt(c, files, maxNames, r)
  {
    hide Tables, Accepted, Indexable, FaithfulBase, BaseUsable, RowsFit, RowBytes, GrownFrom, InventoryRows;
    if latest.Some? {
      RebuiltIsUsable(c, before, files, maxNames, latest.value);
    }
    FaithfulReuse(c, files, latest, maxNames);
    r := Build(c, files, latest, false, maxNames);
    if BaseReusable(c, files, latest, maxNames) {
      SameBuild(c, files, Reused(c, files, latest, maxNames), maxNames);
    }
  }

  /**
    Refreshes over the life of an inventory. Whatever was added in between, and whichever refreshes failed, every
    refresh starting from the last published generation publishes exactly when, and exactly what, a forced rebuild
    would.
   */
  method RefreshHistory(c: Codec, inventories: seq<map<nat, File>>, maxNames: nat)
    returns (published: seq<Option<Generation>>)
    requires c.Valid() && forall i, j :: 0 <= i <= j < |inventories| ==> GrownFrom(inventories[i], inventories[j])
    ensures |published| == |inventories|
    ensures forall i :: 0 <= i < |inventories| ==> Rebuilt(c, inventories[i], maxNames, published[i])
  {
    hide Rebuilt, GrownFrom;
    published := [];
    var latest: Option<Generation> := None;
    ghost var base := 0;
    for n := 0 to |inventories|
      invariant |published| == n
      invariant latest.Some? ==> base < n && Rebuilt(c, inventories[base], maxNames, latest)
      invariant forall i :: 0 <= i < n ==> Rebuilt(c, inventories[i], maxNames, published[i])
    {
      var generation := Refresh(c, inventories[n], latest, maxNames, if latest.Some? then inventories[base] else map[]);
      if generation.Some? {
        latest, base := generation, n;
      }
      published := published + [generation];
    }
  }
}
