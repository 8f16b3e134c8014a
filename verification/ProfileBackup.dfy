/** Profile transfer: what `create_backup` packs, `inspect_backup` of the same version unpacks. */
module ProfileBackup {
  import opened BackupManifest
  import opened Bytes
  import opened Enumeration
  import opened Wrappers
  import opened ZipDirectory
  import opened ZipMember

  // ---- the archive of a profile ----

  /** The library calls: deflate and CRC-32, SHA-256, JSON parsing; and the running version. */
  datatype Library = Library(zip: ZipCodec, deflate: seq<byte> -> seq<byte>, sha: seq<byte> -> string,
                             parse: seq<byte> -> Option<Manifest>, version: string)

  /**
    What the libraries promise. What they promise about JSON is only that a regular manifest is read back from its text.
   */
  ghost predicate Lawful(lib: Library) {
    && Inflates(lib.zip) && (forall x: seq<byte> :: lib.zip.inflate(lib.deflate(x)) == Some(x) && lib.deflate(x) != [])
    && (forall x: seq<byte> :: lib.zip.crc(x) < 0x1_0000_0000)
    && (forall x: seq<byte> :: HexDigest(lib.sha(x)))
    && (forall m: Manifest, order: seq<string>, b: seq<byte> :: Writes(m, order, b) ==> lib.parse(b) == Some(m))
  }

  type Files = map<string, seq<byte>>

  function Total(order: seq<string>, files: Files): nat
    requires forall n :: n in order ==> n in files
  {
    if order == [] then 0 else Total(order[..|order| - 1], files) + |files[order[|order| - 1]]|
  }

  /** What a snapshot of a profile satisfies. */
  ghost predicate Exportable(order: seq<string>, files: Files) {
    && Listing(order, files.Keys) && 1 <= |order| <= MAX_FILES
    && (forall n :: n in files ==> Allowed(n) && |files[n]| <= MAX_FILE)
    && Total(order, files) <= MAX_TOTAL
  }

  function ManifestFor(lib: Library, createdAt: string, files: Files): Manifest {
    Manifest(SCHEMA, lib.version, createdAt, map n | n in files :: Record(|files[n]|, lib.sha(files[n])))
  }

  // regular-file permissions in the upper half of the attributes
  const ATTRIBUTES: nat := 0x180_0000
  const MANIFEST_NAME := "manifest.json"

  function EntryFor(lib: Library, stamp: nat, name: string, data: seq<byte>): Entry {
    Entry(Encode(name), DEFLATED, stamp, lib.zip.crc(data), lib.deflate(data), |data|, ATTRIBUTES)
  }

  function Members(lib: Library, stamp: nat, manifest: seq<byte>, order: seq<string>, files: Files): seq<Entry>
    requires forall n :: n in order ==> n in files
  {
    if order == [] then [EntryFor(lib, stamp, MANIFEST_NAME, manifest)]
    else
      var last := order[|order| - 1];
      Members(lib, stamp, manifest, order[..|order| - 1], files) + [EntryFor(lib, stamp, "data/" + last, files[last])]
  }

  lemma {:induction false} MemberAt(lib: Library, stamp: nat, manifest: seq<byte>, order: seq<string>, files: Files)
    requires forall n :: n in order ==> n in files
    ensures var members := Members(lib, stamp, manifest, order, files);
            && |members| == |order| + 1 && members[0] == EntryFor(lib, stamp, MANIFEST_NAME, manifest)
            && forall i :: 0 <= i < |order| ==>
                 members[i + 1] == EntryFor(lib, stamp, "data/" + order[i], files[order[i]])
  {
    hide EntryFor;
    if order != [] {
      MemberAt(lib, stamp, manifest, order[..|order| - 1], files);
    }
  }

  /** `create_backup`, from its snapshot on. */
  method CreateBackup(lib: Library, stamp: nat, createdAt: string, order: seq<string>, files: Files)
    returns (r: Result<seq<byte>>)
    requires Listing(order, files.Keys)
    ensures var manifest := Encode(ManifestText(ManifestFor(lib, createdAt, files), order));
            var raw := Archive(Members(lib, stamp, manifest, order, files));
            && (r.Success? <==> files != map[] && |raw| <= MAX_ARCHIVE)
            && (r.Success? ==> r.value == raw)
  {
    if files == map[] {
      return Failure("backup_no_user_data");
    }
    var manifest := Encode(ManifestText(ManifestFor(lib, createdAt, files), order));
    var raw := Archive(Members(lib, stamp, manifest, order, files));
    r := if |raw| > MAX_ARCHIVE then Failure("backup_too_large") else Success(raw);
  }

  // ---- inspection ----

  function SumSizes(items: seq<Item>): nat {
    if items == [] then 0 else SumSizes(items[..|items| - 1]) + items[|items| - 1].fileSize
  }

  /** No encryption, no special file, no directory, a supported method, an allowed size. */
  predicate ItemOk(item: Item) {
    && item.flags % 2 == 0 && item.attributes / 0x1000_0000 % 16 in {0, 8}
    && (item.name != [] ==> item.name[|item.name| - 1] != 47)
    && item.compression in {STORED, DEFLATED}
    && item.fileSize <= if item.name == Encode(MANIFEST_NAME) then MAX_MANIFEST else MAX_FILE
  }

  predicate ItemsOk(items: seq<Item>) {
    && |items| <= MAX_FILES + 1
    && (forall i, j | 0 <= i < j < |items| :: items[i].name != items[j].name)
    && (exists i | 0 <= i < |items| :: items[i].name == Encode(MANIFEST_NAME))
    && SumSizes(items) <= MAX_TOTAL + MAX_MANIFEST
    && (forall i | 0 <= i < |items| :: ItemOk(items[i]))
  }

  function NamesOf(items: seq<Item>): set<seq<byte>> {
    set i | 0 <= i < |items| :: items[i].name
  }

  function Expected(m: Manifest): set<seq<byte>> {
    {Encode(MANIFEST_NAME)} + set n | n in m.files :: Encode("data/" + n)
  }

  /** `getinfo`. */
  function Find(items: seq<Item>, name: seq<byte>): (k: nat)
    ensures k <= |items| && (k < |items| ==> items[k].name == name)
    ensures k == |items| ==> forall i :: 0 <= i < |items| ==> items[i].name != name
  {
    if items == [] then 0 else if items[0].name == name then 0 else 1 + Find(items[1..], name)
  }

  /** The archive reader finds the same end record and takes the members from the directory. */
  method ReadItems(raw: seq<byte>) returns (items: seq<Item>)
    requires exists end: nat :: SoundDirectory(raw, end)
    ensures forall end: nat :: SoundDirectory(raw, end) ==>
              items == Items(raw, U32(raw, end + 16), end, U16(raw, end + 10))
  {
    hide Items, Tiles;
    var found := FindEnd(raw, WindowStart(raw));
    var end := found.value;
    assert forall e: nat :: SoundDirectory(raw, e) ==> e == end;
    items := Items(raw, U32(raw, end + 16), end, U16(raw, end + 10));
  }

  /** The member of this name, by the directory. */
  ghost function NamedContent(zip: ZipCodec, raw: seq<byte>, items: seq<Item>, name: seq<byte>, limit: nat,
                              offset: nat): Option<seq<byte>>
    requires offset <= |raw|
  {
    var k := Find(items, name);
    if k < |items| then MemberContent(zip, raw, items[k], limit, offset) else None
  }

  /** These files are exactly what the manifest of this version lists, and what their own members hold. */
  ghost predicate Recorded(lib: Library, raw: seq<byte>, offset: nat, items: seq<Item>, m: Manifest, files: Files)
    requires offset <= |raw|
  {
    && m.schema == SCHEMA && m.version == lib.version && NamesOf(items) == Expected(m) && files.Keys == m.files.Keys
    && forall n :: n in files ==> FileRecorded(lib, raw, offset, items, m, n, files[n])
  }

  ghost predicate FileRecorded(lib: Library, raw: seq<byte>, offset: nat, items: seq<Item>, m: Manifest, n: string,
                               data: seq<byte>)
    requires offset <= |raw|
  {
    && n in m.files && Allowed(n) && NamedContent(lib.zip, raw, items, Encode("data/" + n), MAX_FILE, offset)
       == Some(data)
    && |data| == m.files[n].size && lib.sha(data) == m.files[n].sha
  }

  /** The members hold these files, under the manifest that the member `manifest.json` holds. */
  ghost predicate Holds(lib: Library, raw: seq<byte>, offset: nat, items: seq<Item>, files: Files)
    requires offset <= |raw|
  {
    var text := NamedContent(lib.zip, raw, items, Encode(MANIFEST_NAME), MAX_MANIFEST, offset);
    && ItemsOk(items) && text.Some? && lib.parse(text.value).Some?
    && Recorded(lib, raw, offset, items, lib.parse(text.value).value, files)
  }

  /** The bytes are a bounded archive with a sound directory whose members hold these files. */
  ghost predicate ArchiveHolds(lib: Library, raw: seq<byte>, files: Files) {
    |raw| <= MAX_ARCHIVE && exists end: nat :: HoldsFrom(lib, raw, end, files)
  }

  ghost predicate HoldsFrom(lib: Library, raw: seq<byte>, end: nat, files: Files) {
    SoundDirectory(raw, end) && Holds(lib, raw, U32(raw, end + 16),
                                      Items(raw, U32(raw, end + 16), end, U16(raw, end + 10)), files)
  }

  lemma HoldsAtTheEnd(lib: Library, raw: seq<byte>, end: nat, files: Files)
    requires SoundDirectory(raw, end) && |raw| <= MAX_ARCHIVE
    ensures ArchiveHolds(lib, raw, files)
            <==> Holds(lib, raw, U32(raw, end + 16), Items(raw, U32(raw, end + 16), end, U16(raw, end + 10)), files)
  {
    OnlyEnd(raw, end);
    hide Holds, Items, Tiles;
    assert HoldsFrom(lib, raw, end, files)
      <==> Holds(lib, raw, U32(raw, end + 16), Items(raw, U32(raw, end + 16), end, U16(raw, end + 10)), files);
  }

  /** An archive holds one table of files at most. */
  lemma HoldsOnce(lib: Library, raw: seq<byte>, f: Files, g: Files)
    requires ArchiveHolds(lib, raw, f) && ArchiveHolds(lib, raw, g)
    ensures f == g
  {
    var end: nat :| HoldsFrom(lib, raw, end, f);
    HoldsAtTheEnd(lib, raw, end, g);
    HeldOnce(lib, raw, U32(raw, end + 16), Items(raw, U32(raw, end + 16), end, U16(raw, end + 10)), f, g);
  }

  lemma HeldOnce(lib: Library, raw: seq<byte>, offset: nat, items: seq<Item>, f: Files, g: Files)
    requires offset <= |raw| && Holds(lib, raw, offset, items, f) && Holds(lib, raw, offset, items, g)
    ensures f == g
  {
    hide NamedContent, ItemsOk, Encode, Expected, NamesOf, Allowed;
    assert f.Keys == g.Keys;
    forall n | n in f ensures f[n] == g[n] {
      assert n in g.Keys;
      assert Some(f[n]) == Some(g[n]);
    }
  }

  /** Whatever the bytes are, what they hold is allowed files of bounded size. */
  lemma HeldIsAllowed(lib: Library, raw: seq<byte>, files: Files, n: string)
    requires ArchiveHolds(lib, raw, files) && n in files
    ensures Allowed(n) && |files[n]| <= MAX_FILE
  {
    var end: nat :| HoldsFrom(lib, raw, end, files);
    hide SoundDirectory, Items, ItemsOk, Encode, Expected, Allowed, Tiles, U16, U32, Drains, Output;
    var offset, items := U32(raw, end + 16), Items(raw, U32(raw, end + 16), end, U16(raw, end + 10));
    var m := lib.parse(NamedContent(lib.zip, raw, items, Encode(MANIFEST_NAME), MAX_MANIFEST, offset).value).value;
    assert FileRecorded(lib, raw, offset, items, m, n, files[n]);
  }

  /** `getinfo` and `_read_member`. */
  method ReadNamed(lib: Library, raw: seq<byte>, items: seq<Item>, name: seq<byte>, limit: nat, offset: nat)
    returns (r: Result<seq<byte>>)
    requires offset <= |raw|
    ensures r.Success? <==> NamedContent(lib.zip, raw, items, name, limit, offset).Some?
    ensures r.Success? ==> r.value == NamedContent(lib.zip, raw, items, name, limit, offset).value
  {
    hide MemberContent;
    var k := Find(items, name);
    if k == |items| {
      return Failure("backup_invalid");
    }
    r := ReadMember(lib.zip, raw, items[k], limit, offset);
  }

  /**
    `inspect_backup`, up to the validation of the documents. On any bytes it succeeds exactly when they are an archive
    that holds files, and returns those.
   */
  method InspectBackup(lib: Library, raw: seq<byte>) returns (r: Result<Files>)
    ensures r.Success? <==> exists files: Files :: ArchiveHolds(lib, raw, files)
    ensures r.Success? ==> ArchiveHolds(lib, raw, r.value)
  {
    if |raw| > MAX_ARCHIVE {
      return Failure("backup_too_large");
    }
    var directory := CentralDirectory(raw);
    if directory.Failure? {
      return Failure("backup_invalid");
    }
    r := InspectDirectory(lib, raw, directory.value);
  }

  method InspectDirectory(lib: Library, raw: seq<byte>, offset: nat) returns (r: Result<Files>)
    requires |raw| <= MAX_ARCHIVE && exists end: nat :: SoundDirectory(raw, end)
    requires forall end: nat :: SoundDirectory(raw, end) ==> offset == U32(raw, end + 16)
    ensures r.Success? <==> exists files: Files :: ArchiveHolds(lib, raw, files)
    ensures r.Success? ==> ArchiveHolds(lib, raw, r.value)
  {
    assert offset <= |raw|;
    var items := ReadItems(raw);
    AllHeld(lib, raw, offset, items);
    r := InspectMembers(lib, raw, items, offset);
  }

  lemma AllHeld(lib: Library, raw: seq<byte>, offset: nat, items: seq<Item>)
    requires |raw| <= MAX_ARCHIVE && offset <= |raw| && exists end: nat :: SoundDirectory(raw, end)
    requires forall end: nat :: SoundDirectory(raw, end) ==>
               offset == U32(raw, end + 16) && items == Items(raw, U32(raw, end + 16), end, U16(raw, end + 10))
    ensures forall files: Files :: ArchiveHolds(lib, raw, files) <==> Holds(lib, raw, offset, items, files)
  {
    var end: nat :| SoundDirectory(raw, end);
    forall files: Files ensures ArchiveHolds(lib, raw, files) <==> Holds(lib, raw, offset, items, files) {
      HoldsAtTheEnd(lib, raw, end, files);
    }
  }

  lemma OnlyEnd(raw: seq<byte>, end: nat)
    requires SoundDirectory(raw, end)
    ensures forall e: nat :: SoundDirectory(raw, e) ==> e == end
  {
    hide Tiles;
  }

  method InspectMembers(lib: Library, raw: seq<byte>, items: seq<Item>, offset: nat) returns (r: Result<Files>)
    requires offset <= |raw|
    ensures r.Success? <==> exists files: Files :: Holds(lib, raw, offset, items, files)
    ensures r.Success? ==> Holds(lib, raw, offset, items, r.value)
  {
    hide Recorded, NamedContent;
    if !ItemsOk(items) {
      return Failure("backup_invalid");
    }
    hide ItemsOk;
    var read := ReadNamed(lib, raw, items, Encode(MANIFEST_NAME), MAX_MANIFEST, offset);
    if read.Failure? {
      return Failure(read.error);
    }
    var parsed := lib.parse(read.value);
    if parsed.None? {
      return Failure("backup_invalid");
    }
    r := InspectFiles(lib, raw, items, offset, parsed.value);
    assert forall files: Files :: Holds(lib, raw, offset, items, files) <==>
             Recorded(lib, raw, offset, items, parsed.value, files);
  }

  /** The checks of the manifest, and the loop over its files. */
  method InspectFiles(lib: Library, raw: seq<byte>, items: seq<Item>, offset: nat, m: Manifest)
    returns (r: Result<Files>)
    requires offset <= |raw|
    ensures r.Success? <==> exists files: Files :: Recorded(lib, raw, offset, items, m, files)
    ensures r.Success? ==> Recorded(lib, raw, offset, items, m, r.value)
  {
    hide FileRecorded;
    if m.schema != SCHEMA || m.version != lib.version {
      return Failure("backup_incompatible");
    }
    if NamesOf(items) != Expected(m) {
      return Failure("backup_invalid");
    }
    hide NamesOf, Expected;
    var result: Files := map[];
    var order := InSomeOrder(m.files.Keys);
    for i := 0 to |order|
      invariant forall n :: n in result <==> n in order[..i]
      invariant forall n :: n in result ==> FileRecorded(lib, raw, offset, items, m, n, result[n])
    {
      assert order[i] in order;
      var read := ReadFile(lib, raw, items, offset, m, order[i]);
      if read.Failure? {
        NotRecorded(lib, raw, items, offset, m, order[i]);
        return Failure(read.error);
      }
      assert order[..i + 1] == order[..i] + [order[i]];
      result := result[order[i] := read.value];
    }
    assert order[..|order|] == order;
    assert forall n :: n in result.Keys <==> n in m.files.Keys;
    assert Recorded(lib, raw, offset, items, m, result);
    r := Success(result);
  }

  lemma NotRecorded(lib: Library, raw: seq<byte>, items: seq<Item>, offset: nat, m: Manifest, n: string)
    requires offset <= |raw| && n in m.files && forall data: seq<byte> ::
               !FileRecorded(lib, raw, offset, items, m, n, data)
    ensures forall files: Files :: !Recorded(lib, raw, offset, items, m, files)
  {
    hide FileRecorded, NamesOf, Expected;
    forall files: Files ensures !Recorded(lib, raw, offset, items, m, files) {
      if files.Keys == m.files.Keys {
        assert n in files.Keys;
        assert !FileRecorded(lib, raw, offset, items, m, n, files[n]);
      }
    }
  }

  /** One file of the manifest. */
  method ReadFile(lib: Library, raw: seq<byte>, items: seq<Item>, offset: nat, m: Manifest, n: string)
    returns (r: Result<seq<byte>>)
    requires offset <= |raw| && n in m.files
    ensures r.Success? ==> FileRecorded(lib, raw, offset, items, m, n, r.value)
    ensures r.Failure? ==> forall data: seq<byte> :: !FileRecorded(lib, raw, offset, items, m, n, data)
  {
    hide NamedContent, Encode;
    if !Allowed(n) {
      return Failure("backup_invalid");
    }
    r := ReadNamed(lib, raw, items, Encode("data/" + n), MAX_FILE, offset);
    if r.Success? && (|r.value| != m.files[n].size || lib.sha(r.value) != m.files[n].sha) {
      r := Failure("backup_invalid");
    }
  }

  // ---- the round trip ----

  lemma DataName(n: string)
    requires Allowed(n)
    ensures Plain("data/" + n) && 6 <= |"data/" + n| <= 237 && Encode("data/" + n)[|n| + 4] != 47
  {
    AllowedIsShortAndPlain(n);
    AllowedEnds(n);
    PlainConcat("data/", n);
  }

  lemma AllowedEnds(n: string)
    requires Allowed(n)
    ensures n != "" && n[|n| - 1] == 'n'
  {
    if TopName(n) {
      TopNamesEnd();
    } else {
      var k :| 0 <= k < |n| && n[k] == '/' && StoreName(n[..k]) && DocumentName(n[k + 1..]);
      var s := n[k + 1..];
      assert s[|s| - 5..][4] == ".json"[4];
      assert n[|n| - 1] == s[|s| - 1];
    }
  }

  lemma TopNamesEnd()
    ensures forall s | TopName(s) :: s != "" && s[|s| - 1] == 'n'
  {
  }

  lemma DifferentNames(a: string, b: string)
    requires a != b && Allowed(a) && Allowed(b)
    ensures Encode("data/" + a) != Encode("data/" + b)
    ensures Encode("data/" + a) != Encode(MANIFEST_NAME)
  {
    DataName(a);
    DataName(b);
    assert Encode("data/" + a)[0] == 100 && Encode(MANIFEST_NAME)[0] == 109;
    assert ("data/" + a)[5..] == a && ("data/" + b)[5..] == b;
    if Encode("data/" + a) == Encode("data/" + b) {
      EncodeIsInjective("data/" + a, "data/" + b);
    }
  }

  lemma {:induction false} SumOfMembers(lib: Library, stamp: nat, manifest: seq<byte>, order: seq<string>, files: Files)
    requires forall n :: n in order ==> n in files
    ensures SumSizes(ItemsOf(Members(lib, stamp, manifest, order, files))) == |manifest| + Total(order, files)
  {
    hide Encode;
    if order == [] {
      var only := EntryFor(lib, stamp, MANIFEST_NAME, manifest);
      assert [only][..0] == [];
      assert ItemsOf([only]) == [ItemOf(only, 0)];
      assert [ItemOf(only, 0)][..0] == [];
    } else {
      var before := Members(lib, stamp, manifest, order[..|order| - 1], files);
      var last := EntryFor(lib, stamp, "data/" + order[|order| - 1], files[order[|order| - 1]]);
      SumOfMembers(lib, stamp, manifest, order[..|order| - 1], files);
      assert (before + [last])[..|before|] == before;
      var items := ItemsOf(before + [last]);
      assert items == ItemsOf(before) + [ItemOf(last, |Locals(before)|)];
      assert items[..|items| - 1] == ItemsOf(before);
    }
  }

  /** The member is there and holds a complete deflate stream of this data, with its true length and checksum. */
  ghost predicate Genuine(zip: ZipCodec, raw: seq<byte>, item: Item, limit: nat, offset: nat, data: seq<byte>) {
    && offset <= |raw| && HeaderFits(raw, item, limit, offset) && item.compression == DEFLATED
       && item.compressedSize > 0
    && zip.inflate(MemberData(raw, item)) == Some(data) && |data| == item.fileSize && zip.crc(data) == item.crc
  }

  /** A produced member is genuine. */
  lemma MemberIsGenuine(lib: Library, stamp: nat, entries: seq<Entry>, k: nat, name: string, data: seq<byte>,
                        limit: nat)
    requires Lawful(lib) && k < |entries| && entries[k] == EntryFor(lib, stamp, name, data)
    requires |data| <= limit <= MAX_FILE && 0 < |name| < 0x1_0000 && stamp < 0x1_0000_0000
             && |Archive(entries)| <= MAX_ARCHIVE
    ensures Writable(entries[k])
    ensures |ItemsOf(entries)| == |entries| && ItemsOf(entries)[k].name == Encode(name)
            && ItemsOf(entries)[k].fileSize == |data|
    ensures ItemsOf(entries)[k].flags == 0 && ItemsOf(entries)[k].attributes == ATTRIBUTES
            && ItemsOf(entries)[k].compression == DEFLATED
    ensures Genuine(lib.zip, Archive(entries), ItemsOf(entries)[k], limit, |Locals(entries)|, data)
  {
    hide Encode, Archive, Locals, ItemsOf, HeaderFits, MemberData;
    var e := entries[k];
    LocalAt(entries, k);
    ArchiveParts(entries);
    assert |e.data| <= |Local(e)| <= |Locals(entries)|;
    assert Writable(e);
    ProducedMember(entries, k, limit);
  }

  /** What every member of the archive satisfies. */
  ghost predicate MemberFine(lib: Library, entries: seq<Entry>, k: nat, name: string, data: seq<byte>, limit: nat) {
    && k < |entries| == |ItemsOf(entries)| && Writable(entries[k]) && ItemsOf(entries)[k].name == Encode(name)
    && ItemOk(ItemsOf(entries)[k])
    && Genuine(lib.zip, Archive(entries), ItemsOf(entries)[k], limit, |Locals(entries)|, data)
  }

  lemma DataMemberIsFine(lib: Library, stamp: nat, entries: seq<Entry>, k: nat, n: string, data: seq<byte>)
    requires Lawful(lib) && k < |entries| && entries[k] == EntryFor(lib, stamp, "data/" + n, data) && Allowed(n)
    requires |data| <= MAX_FILE && stamp < 0x1_0000_0000 && |Archive(entries)| <= MAX_ARCHIVE
    ensures MemberFine(lib, entries, k, "data/" + n, data, MAX_FILE)
  {
    hide Archive, Locals, ItemsOf, Genuine, Lawful, Allowed;
    DataName(n);
    MemberIsGenuine(lib, stamp, entries, k, "data/" + n, data, MAX_FILE);
    DifferentFromManifest(n);
    assert ItemOk(ItemsOf(entries)[k]);
  }

  lemma DifferentFromManifest(n: string)
    ensures Encode("data/" + n) != Encode(MANIFEST_NAME)
  {
    assert Encode("data/" + n)[0] == 100 && Encode(MANIFEST_NAME)[0] == 109;
  }

  lemma ManifestMemberIsFine(lib: Library, stamp: nat, entries: seq<Entry>, manifest: seq<byte>)
    requires Lawful(lib) && 0 < |entries| && entries[0] == EntryFor(lib, stamp, MANIFEST_NAME, manifest)
    requires |manifest| <= MAX_MANIFEST && stamp < 0x1_0000_0000 && |Archive(entries)| <= MAX_ARCHIVE
    ensures MemberFine(lib, entries, 0, MANIFEST_NAME, manifest, MAX_MANIFEST)
  {
    hide Archive, Locals, ItemsOf, Genuine, Lawful;
    MemberIsGenuine(lib, stamp, entries, 0, MANIFEST_NAME, manifest, MAX_MANIFEST);
    assert Encode(MANIFEST_NAME)[12] == 110;
    assert ItemOk(ItemsOf(entries)[0]);
  }

  /** The members' names, in archive order. */
  ghost predicate Named(items: seq<Item>, order: seq<string>) {
    && |items| == |order| + 1 && items[0].name == Encode(MANIFEST_NAME)
    && forall i :: 0 <= i < |order| ==> items[i + 1].name == Encode("data/" + order[i])
  }

  lemma NamesAreDistinct(items: seq<Item>, order: seq<string>)
    requires Named(items, order) && (forall n :: n in order ==> Allowed(n))
    requires forall i, j :: 0 <= i < j < |order| ==> order[i] != order[j]
    ensures forall i, j :: 0 <= i < j < |items| ==> items[i].name != items[j].name
  {
    hide Allowed, Encode;
    forall i, j | 0 <= i < j < |items| ensures items[i].name != items[j].name {
      assert items[j - 1 + 1].name == Encode("data/" + order[j - 1]);
      assert order[j - 1] in order;
      if i == 0 {
        DifferentFromManifest(order[j - 1]);
      } else {
        assert items[i - 1 + 1].name == Encode("data/" + order[i - 1]);
        assert order[i - 1] in order && order[i - 1] != order[j - 1];
        DifferentNames(order[i - 1], order[j - 1]);
      }
    }
  }

  lemma NamesAreExpected(items: seq<Item>, order: seq<string>, m: Manifest)
    requires Named(items, order) && Listing(order, m.files.Keys)
    ensures NamesOf(items) == Expected(m)
  {
    hide Encode;
    forall x | x in NamesOf(items) ensures x in Expected(m) {
      var i :| 0 <= i < |items| && items[i].name == x;
      if i > 0 {
        assert items[i - 1 + 1].name == Encode("data/" + order[i - 1]);
        assert order[i - 1] in order;
      }
    }
    forall x | x in Expected(m) ensures x in NamesOf(items) {
      if x == Encode(MANIFEST_NAME) {
        assert items[0].name == x;
      } else {
        var n :| n in m.files && Encode("data/" + n) == x;
        assert n in order;
        var i :| 0 <= i < |order| && order[i] == n;
        assert items[i + 1].name == x;
      }
    }
  }

  /** All the members of a produced archive. */
  lemma AllMembers(lib: Library, stamp: nat, manifest: seq<byte>, order: seq<string>, files: Files)
    requires Lawful(lib) && Exportable(order, files) && stamp < 0x1_0000_0000 && |manifest| <= MAX_MANIFEST
    requires |Archive(Members(lib, stamp, manifest, order, files))| <= MAX_ARCHIVE
    ensures var entries := Members(lib, stamp, manifest, order, files);
            && |entries| == |order| + 1 && MemberFine(lib, entries, 0, MANIFEST_NAME, manifest, MAX_MANIFEST)
            && forall i :: 0 <= i < |order| ==>
                 MemberFine(lib, entries, i + 1, "data/" + order[i], files[order[i]], MAX_FILE)
  {
    var entries := Members(lib, stamp, manifest, order, files);
    MemberAt(lib, stamp, manifest, order, files);
    hide Members, MemberFine, Archive, EntryFor, Lawful, Allowed;
    ManifestMemberIsFine(lib, stamp, entries, manifest);
    forall i | 0 <= i < |order| ensures MemberFine(lib, entries, i + 1, "data/" + order[i], files[order[i]], MAX_FILE) {
      assert order[i] in order;
      DataMemberIsFine(lib, stamp, entries, i + 1, order[i], files[order[i]]);
    }
  }

  lemma ItemsAreOk(items: seq<Item>, order: seq<string>, files: Files)
    requires Named(items, order) && Exportable(order, files)
    requires forall i :: 0 <= i < |items| ==> ItemOk(items[i])
    requires SumSizes(items) <= MAX_MANIFEST + Total(order, files)
    ensures ItemsOk(items)
  {
    hide Allowed, ItemOk, Encode, SumSizes, Total;
    assert forall n :: n in order ==> Allowed(n);
    NamesAreDistinct(items, order);
    assert items[0].name == Encode(MANIFEST_NAME);
  }

  lemma ManifestIsGood(lib: Library, createdAt: string, order: seq<string>, files: Files, manifest: seq<byte>)
    requires Lawful(lib) && Exportable(order, files) && Describable(lib, createdAt)
    requires manifest == Encode(ManifestText(ManifestFor(lib, createdAt, files), order))
    ensures |manifest| <= MAX_MANIFEST && lib.parse(manifest) == Some(ManifestFor(lib, createdAt, files))
    ensures ManifestFor(lib, createdAt, files).files.Keys == files.Keys
  {
    var m := ManifestFor(lib, createdAt, files);
    ManifestIsRegular(lib, createdAt, order, files);
    hide Lawful, Regular, ManifestText, Encode;
    ManifestFits(m, order);
    Parsed(lib, m, order, manifest);
  }

  lemma ManifestIsRegular(lib: Library, createdAt: string, order: seq<string>, files: Files)
    requires Lawful(lib) && Exportable(order, files) && Describable(lib, createdAt)
    ensures var m := ManifestFor(lib, createdAt, files);
            && Regular(m) && Listing(order, m.files.Keys) && m.files.Keys == files.Keys && m.schema == SCHEMA
            && |order| <= MAX_FILES && |m.version| + |m.createdAt| <= 400_000
            && forall n :: n in order ==>
                 n in m.files && Allowed(n) && m.files[n].size <= MAX_FILE && |m.files[n].sha| == 64
  {
    hide Allowed, Inflates, Writes;
    assert ManifestFor(lib, createdAt, files).files.Keys == files.Keys;
    assert Plain(SCHEMA);
  }

  lemma Parsed(lib: Library, m: Manifest, order: seq<string>, manifest: seq<byte>)
    requires Lawful(lib) && Regular(m) && Listing(order, m.files.Keys) && manifest == Encode(ManifestText(m, order))
    ensures lib.parse(manifest) == Some(m)
  {
    hide Regular, ManifestText, Encode, Inflates;
    assert Writes(m, order, manifest);
  }

  /** The names and the checks of the members of a produced archive. */
  lemma FineMembers(lib: Library, entries: seq<Entry>, order: seq<string>, files: Files, manifest: seq<byte>)
    requires Listing(order, files.Keys) && |entries| == |order| + 1
             && MemberFine(lib, entries, 0, MANIFEST_NAME, manifest, MAX_MANIFEST)
    requires forall i :: 0 <= i < |order| ==>
               MemberFine(lib, entries, i + 1, "data/" + order[i], files[order[i]], MAX_FILE)
    ensures Named(ItemsOf(entries), order)
    ensures forall i :: 0 <= i < |entries| ==> ItemOk(ItemsOf(entries)[i])
    ensures forall e :: e in entries ==> Writable(e)
  {
    hide Encode, ItemOk, ItemsOf, Genuine, Archive, Locals, Writable;
    forall i | 0 <= i < |entries| ensures ItemOk(ItemsOf(entries)[i]) && Writable(entries[i]) {
      if i > 0 {
        assert MemberFine(lib, entries, i - 1 + 1, "data/" + order[i - 1], files[order[i - 1]], MAX_FILE);
      }
    }
  }

  lemma ListsMeans(raw: seq<byte>, start: nat, end: nat, entries: seq<Entry>)
    requires Lists(raw, start, end, entries)
    ensures SoundDirectory(raw, end) && U32(raw, end + 16) == start && U16(raw, end + 10) == |entries|
    ensures Items(raw, U32(raw, end + 16), end, U16(raw, end + 10)) == ItemsOf(entries)
  {
  }

  /** What was packed as a member is read back to its end. */
  ghost predicate PackedDrains(lib: Library, data: seq<byte>) {
    Drains(lib.zip, lib.deflate(data), |data|)
  }

  ghost function Packed(lib: Library, data: seq<byte>): Option<seq<byte>> {
    if PackedDrains(lib, data) then Some(data) else None
  }

  /** A packed member holds what was packed, if it drains, and nothing otherwise. */
  lemma MemberIsPacked(lib: Library, stamp: nat, entries: seq<Entry>, k: nat, name: string, data: seq<byte>, limit: nat)
    requires Inflates(lib.zip) && MemberFine(lib, entries, k, name, data, limit)
    requires entries[k] == EntryFor(lib, stamp, name, data) && |data| <= limit
             && |Locals(entries)| <= |Archive(entries)|
    requires forall i, j :: 0 <= i < j < |ItemsOf(entries)| ==> ItemsOf(entries)[i].name != ItemsOf(entries)[j].name
    ensures NamedContent(lib.zip, Archive(entries), ItemsOf(entries), Encode(name), limit, |Locals(entries)|)
            == Packed(lib, data)
  {
    hide Encode, Archive, Locals, ItemsOf, Drains, ItemOk, MemberContent, HeaderFits, MemberData, Inflates;
    var items := ItemsOf(entries);
    ProducedMember(entries, k, limit);
    LocalAt(entries, k);
    assert Find(items, Encode(name)) == k;
    GenuineContent(lib.zip, Archive(entries), items[k], limit, |Locals(entries)|, data);
  }

  /** The version and the time are written as they are, and leave room for the files in the manifest. */
  predicate Describable(lib: Library, createdAt: string) {
    Plain(lib.version) && Plain(createdAt) && |lib.version| + |createdAt| <= 400_000
  }

  /** The members hold what was packed. */
  ghost predicate HoldsPacked(lib: Library, raw: seq<byte>, offset: nat, items: seq<Item>, manifest: seq<byte>,
                              files: Files)
    requires offset <= |raw|
  {
    && NamedContent(lib.zip, raw, items, Encode(MANIFEST_NAME), MAX_MANIFEST, offset) == Packed(lib, manifest)
    && forall n :: n in files ==>
         NamedContent(lib.zip, raw, items, Encode("data/" + n), MAX_FILE, offset) == Packed(lib, files[n])
  }

  /** Everything that was packed is read back to its end. */
  ghost predicate AllDrain(lib: Library, manifest: seq<byte>, files: Files) {
    PackedDrains(lib, manifest) && forall n :: n in files ==> PackedDrains(lib, files[n])
  }

  lemma HoldsWhatDrains(lib: Library, raw: seq<byte>, offset: nat, items: seq<Item>, createdAt: string,
                        manifest: seq<byte>, files: Files, held: Files)
    requires offset <= |raw| && ItemsOk(items) && HoldsPacked(lib, raw, offset, items, manifest, files)
    requires lib.parse(manifest) == Some(ManifestFor(lib, createdAt, files))
             && NamesOf(items) == Expected(ManifestFor(lib, createdAt, files))
    requires forall n :: n in files ==> Allowed(n)
    ensures Holds(lib, raw, offset, items, held) <==> held == files && AllDrain(lib, manifest, files)
  {
    hide NamedContent, ItemsOk, Encode, NamesOf, Expected, Allowed, PackedDrains;
    var m := ManifestFor(lib, createdAt, files);
    assert m.files.Keys == files.Keys;
    if Holds(lib, raw, offset, items, held) {
      forall n | n in files ensures PackedDrains(lib, files[n]) && n in held && held[n] == files[n] {
        assert n in held.Keys;
        assert FileRecorded(lib, raw, offset, items, m, n, held[n]);
      }
      assert held.Keys == files.Keys;
    } else if AllDrain(lib, manifest, files) {
      assert forall n :: n in files ==> FileRecorded(lib, raw, offset, items, m, n, files[n]);
    }
  }

  lemma MembersArePacked(lib: Library, stamp: nat, entries: seq<Entry>, manifest: seq<byte>, order: seq<string>,
                         files: Files)
    requires Inflates(lib.zip) && Listing(order, files.Keys) && |entries| == |order| + 1 && ItemsOk(ItemsOf(entries))
    requires |manifest| <= MAX_MANIFEST && (forall n :: n in files ==> |files[n]| <= MAX_FILE)
             && |Locals(entries)| <= |Archive(entries)|
    requires entries[0] == EntryFor(lib, stamp, MANIFEST_NAME, manifest)
             && MemberFine(lib, entries, 0, MANIFEST_NAME, manifest, MAX_MANIFEST)
    requires forall i :: 0 <= i < |order| ==>
               && entries[i + 1] == EntryFor(lib, stamp, "data/" + order[i], files[order[i]])
               && MemberFine(lib, entries, i + 1, "data/" + order[i], files[order[i]], MAX_FILE)
    ensures HoldsPacked(lib, Archive(entries), |Locals(entries)|, ItemsOf(entries), manifest, files)
  {
    hide Encode, Archive, Locals, ItemsOf, MemberFine, EntryFor, Inflates, Packed, NamedContent;
    MemberIsPacked(lib, stamp, entries, 0, MANIFEST_NAME, manifest, MAX_MANIFEST);
    forall n | n in files
      ensures NamedContent(lib.zip, Archive(entries), ItemsOf(entries), Encode("data/" + n), MAX_FILE,
                           |Locals(entries)|)
              == Packed(lib, files[n])
    {
      assert n in order;
      var i :| 0 <= i < |order| && order[i] == n;
      MemberIsPacked(lib, stamp, entries, i + 1, "data/" + n, files[n], MAX_FILE);
    }
  }

  /** The members of a produced archive, for its reader. */
  lemma ProducedMembers(lib: Library, stamp: nat, manifest: seq<byte>, order: seq<string>, files: Files)
    requires Lawful(lib) && Exportable(order, files) && stamp < 0x1_0000_0000 && |manifest| <= MAX_MANIFEST
    requires |Archive(Members(lib, stamp, manifest, order, files))| <= MAX_ARCHIVE
    ensures var entries := Members(lib, stamp, manifest, order, files);
            && |entries| == |order| + 1 && (forall e :: e in entries ==> Writable(e))
            && |Locals(entries)| <= |Archive(entries)| && ItemsOk(ItemsOf(entries)) && Named(ItemsOf(entries), order)
            && HoldsPacked(lib, Archive(entries), |Locals(entries)|, ItemsOf(entries), manifest, files)
  {
    var entries := Members(lib, stamp, manifest, order, files);
    AllMembers(lib, stamp, manifest, order, files);
    MemberAt(lib, stamp, manifest, order, files);
    ArchiveParts(entries);
    assert forall n :: n in order ==> n in files;
    SumOfMembers(lib, stamp, manifest, order, files);
    FineMembers(lib, entries, order, files, manifest);
    ItemsAreOk(ItemsOf(entries), order, files);
    MembersArePacked(lib, stamp, entries, manifest, order, files);
  }

  /** The archive that `create_backup` returns holds the files that were packed, if all drain, and nothing otherwise. */
  lemma ProducedHolds(lib: Library, stamp: nat, createdAt: string, order: seq<string>, files: Files,
                      manifest: seq<byte>, held: Files)
    requires Lawful(lib) && Exportable(order, files) && stamp < 0x1_0000_0000 && Describable(lib, createdAt)
    requires manifest == Encode(ManifestText(ManifestFor(lib, createdAt, files), order))
    requires |Archive(Members(lib, stamp, manifest, order, files))| <= MAX_ARCHIVE
    ensures ArchiveHolds(lib, Archive(Members(lib, stamp, manifest, order, files)), held) <==>
              held == files && AllDrain(lib, manifest, files)
  {
    var entries := Members(lib, stamp, manifest, order, files);
    assert Listing(order, files.Keys) && forall n :: n in files ==> Allowed(n);
    ManifestIsGood(lib, createdAt, order, files, manifest);
    ProducedMembers(lib, stamp, manifest, order, files);
    FewEntries(order, files, entries);
    hide *;
    NamesAreExpected(ItemsOf(entries), order, ManifestFor(lib, createdAt, files));
    EntriesHold(lib, entries, createdAt, manifest, files, held);
  }

  lemma EntriesHold(lib: Library, entries: seq<Entry>, createdAt: string, manifest: seq<byte>, files: Files,
                    held: Files)
    requires 1 <= |entries| <= MAX_FILES + 1 && |Archive(entries)| <= MAX_ARCHIVE
             && |Locals(entries)| <= |Archive(entries)|
    requires (forall e :: e in entries ==> Writable(e)) && ItemsOk(ItemsOf(entries))
    requires HoldsPacked(lib, Archive(entries), |Locals(entries)|, ItemsOf(entries), manifest, files)
    requires lib.parse(manifest) == Some(ManifestFor(lib, createdAt, files))
    requires NamesOf(ItemsOf(entries)) == Expected(ManifestFor(lib, createdAt, files)) && forall n :: n in files ==>
               Allowed(n)
    ensures ArchiveHolds(lib, Archive(entries), held) <==> held == files && AllDrain(lib, manifest, files)
  {
    hide *;
    var raw, start, end := Archive(entries), |Locals(entries)|, |Locals(entries)| + |Centrals(entries)|;
    ProducedIsSound(entries);
    ListsMeans(raw, start, end, entries);
    HoldsAtTheEnd(lib, raw, end, held);
    HoldsWhatDrains(lib, raw, start, ItemsOf(entries), createdAt, manifest, files, held);
  }

  lemma SomethingToBackUp(order: seq<string>, files: Files)
    requires Exportable(order, files)
    ensures Listing(order, files.Keys) && files != map[]
  {
    assert order[0] in files;
  }

  lemma FewEntries(order: seq<string>, files: Files, entries: seq<Entry>)
    requires Exportable(order, files) && |entries| == |order| + 1
    ensures 1 <= |entries| <= MAX_FILES + 1
  {
  }

  lemma SmallDrains(lib: Library, data: seq<byte>)
    requires Lawful(lib) && |data| < ZIP_CHUNK
    ensures PackedDrains(lib, data)
  {
    hide Drains, Inflates;
    GenuineMember(lib.zip, lib.deflate(data), data);
  }

  lemma AllSmallDrain(lib: Library, manifest: seq<byte>, files: Files)
    requires Lawful(lib) && |manifest| < ZIP_CHUNK && forall n :: n in files ==> |files[n]| < ZIP_CHUNK
    ensures AllDrain(lib, manifest, files)
  {
    hide Lawful, PackedDrains;
    SmallDrains(lib, manifest);
    forall n | n in files ensures PackedDrains(lib, files[n]) {
      SmallDrains(lib, files[n]);
    }
  }

  /**
    The round trip. An archive that `create_backup` returns is accepted by `inspect_backup` of the same version and
    gives back the same files, if and only if the manifest and every file drain, each on its own; those below 64 KiB
    always do.
   */
  method RoundTrip(lib: Library, stamp: nat, createdAt: string, order: seq<string>, files: Files)
    returns (created: Result<seq<byte>>, inspected: Result<Files>)
    requires Lawful(lib) && Exportable(order, files) && stamp < 0x1_0000_0000 && Describable(lib, createdAt)
    ensures var manifest := Encode(ManifestText(ManifestFor(lib, createdAt, files), order));
            created.Success? <==> |Archive(Members(lib, stamp, manifest, order, files))| <= MAX_ARCHIVE
    ensures created.Success? ==>
              && (inspected.Success? <==>
                  AllDrain(lib, Encode(ManifestText(ManifestFor(lib, createdAt, files), order)), files))
              && (inspected.Success? ==> inspected.value == files)
    ensures (created.Success? && |ManifestText(ManifestFor(lib, createdAt, files), order)| < ZIP_CHUNK
             && forall n :: n in files ==> |files[n]| < ZIP_CHUNK) ==> inspected == Success(files)
  {
    ghost var manifest := Encode(ManifestText(ManifestFor(lib, createdAt, files), order));
    inspected := Failure("");
    SomethingToBackUp(order, files);
    created := CreateBackup(lib, stamp, createdAt, order, files);
    if created.Success? {
      ProducedHoldsOnly(lib, stamp, createdAt, order, files, manifest);
      inspected := InspectBackup(lib, created.value);
    }
  }

  lemma ProducedHoldsOnly(lib: Library, stamp: nat, createdAt: string, order: seq<string>, files: Files,
                          manifest: seq<byte>)
    requires Lawful(lib) && Exportable(order, files) && stamp < 0x1_0000_0000 && Describable(lib, createdAt)
    requires manifest == Encode(ManifestText(ManifestFor(lib, createdAt, files), order))
    requires |Archive(Members(lib, stamp, manifest, order, files))| <= MAX_ARCHIVE
    ensures var raw := Archive(Members(lib, stamp, manifest, order, files));
            && (forall held: Files :: ArchiveHolds(lib, raw, held) ==> held == files)
            && (ArchiveHolds(lib, raw, files) <==> AllDrain(lib, manifest, files))
    ensures |manifest| < ZIP_CHUNK && (forall n :: n in files ==> |files[n]| < ZIP_CHUNK) ==>
              AllDrain(lib, manifest, files)
  {
    SomethingToBackUp(order, files);
    hide *;
    var raw := Archive(Members(lib, stamp, manifest, order, files));
    forall held: Files ensures ArchiveHolds(lib, raw, held) <==> held == files && AllDrain(lib, manifest, files) {
      ProducedHolds(lib, stamp, createdAt, order, files, manifest, held);
    }
    if |manifest| < ZIP_CHUNK && forall n :: n in files ==> |files[n]| < ZIP_CHUNK {
      AllSmallDrain(lib, manifest, files);
    }
  }
}
