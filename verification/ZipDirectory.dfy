/**
  The container of a profile backup, byte by byte: the layout the producer writes (sections 4.3.7, 4.3.12 and
  4.3.16 of PKWARE's APPNOTE, without ZIP64, comments or extra fields) and the bounded walk over the directory.
 */
module ZipDirectory {
  import opened Bytes
  import opened Wrappers

  const MAX_ARCHIVE: nat := 64 * 1024 * 1024
  const MAX_FILES: nat := 5000
  // an end record and the longest comment
  const END_WINDOW: nat := 65557

  // ---- little-endian fields ----

  function U16(s: seq<byte>, p: nat): (n: nat)
    requires p + 2 <= |s|
    ensures n < 0x1_0000
  {
    (s[p] as nat) + 256 * (s[p + 1] as nat)
  }

  function U32(s: seq<byte>, p: nat): (n: nat)
    requires p + 4 <= |s|
    ensures n < 0x1_0000_0000
  {
    (s[p] as nat) + 256 * (s[p + 1] as nat) + 0x1_0000 * (s[p + 2] as nat) + 0x100_0000 * (s[p + 3] as nat)
  }

  function B0(n: nat): byte { n % 256 }
  function B1(n: nat): byte { n / 256 % 256 }
  function B2(n: nat): byte { n / 0x1_0000 % 256 }
  function B3(n: nat): byte { n / 0x100_0000 % 256 }

  lemma Short(n: nat)
    requires n < 0x1_0000
    ensures B0(n) + 256 * B1(n) == n
  {
  }

  lemma Long(n: nat)
    requires n < 0x1_0000_0000
    ensures B0(n) + 256 * B1(n) + 0x1_0000 * B2(n) + 0x100_0000 * B3(n) == n
  {
    assert n == 256 * (n / 256) + n % 256;
    assert n / 256 == 256 * (n / 256 / 256) + n / 256 % 256;
    assert n / 256 / 256 == n / 0x1_0000 && n / 0x1_0000 / 256 == n / 0x100_0000;
    assert n / 0x1_0000 == 256 * (n / 0x100_0000) + n / 0x1_0000 % 256;
  }

  // ---- headers ----

  /** A member as the directory describes it. */
  datatype Item = Item(name: seq<byte>, flags: nat, compression: nat, crc: nat, compressedSize: nat, fileSize: nat,
                       attributes: nat, headerOffset: nat)

  /** A member as the producer writes it. */
  datatype Entry = Entry(name: seq<byte>, compression: nat, stamp: nat, crc: nat, data: seq<byte>, fileSize: nat,
                         attributes: nat)

  predicate Writable(e: Entry) {
    && 0 < |e.name| < 0x1_0000 && e.compression < 0x1_0000 && e.stamp < 0x1_0000_0000 && e.crc < 0x1_0000_0000
    && |e.data| < 0x1_0000_0000 && e.fileSize < 0x1_0000_0000 && e.attributes < 0x1_0000_0000
  }

  function LocalHeader(e: Entry): (h: seq<byte>)
    ensures |h| == 30
  {
    [0x50, 0x4B, 3, 4, 20, 0, 0, 0, B0(e.compression), B1(e.compression),
     B0(e.stamp), B1(e.stamp), B2(e.stamp), B3(e.stamp), B0(e.crc), B1(e.crc), B2(e.crc), B3(e.crc),
     B0(|e.data|), B1(|e.data|), B2(|e.data|), B3(|e.data|), B0(e.fileSize), B1(e.fileSize), B2(e.fileSize),
     B3(e.fileSize),
     B0(|e.name|), B1(|e.name|), 0, 0]
  }

  function Local(e: Entry): seq<byte> {
    LocalHeader(e) + e.name + e.data
  }

  function CentralHeader(e: Entry, offset: nat): (h: seq<byte>)
    ensures |h| == 46
  {
    [0x50, 0x4B, 1, 2, 20, 3, 20, 0, 0, 0, B0(e.compression), B1(e.compression),
     B0(e.stamp), B1(e.stamp), B2(e.stamp), B3(e.stamp), B0(e.crc), B1(e.crc), B2(e.crc), B3(e.crc),
     B0(|e.data|), B1(|e.data|), B2(|e.data|), B3(|e.data|)]
    + [B0(e.fileSize), B1(e.fileSize), B2(e.fileSize), B3(e.fileSize), B0(|e.name|), B1(|e.name|),
       0, 0, 0, 0, 0, 0, 0, 0, B0(e.attributes), B1(e.attributes), B2(e.attributes), B3(e.attributes),
       B0(offset), B1(offset), B2(offset), B3(offset)]
  }

  function EndRecord(count: nat, size: nat, offset: nat): (h: seq<byte>)
    ensures |h| == 22
  {
    [0x50, 0x4B, 5, 6, 0, 0, 0, 0, B0(count), B1(count), B0(count), B1(count),
     B0(size), B1(size), B2(size), B3(size), B0(offset), B1(offset), B2(offset), B3(offset), 0, 0]
  }

  function Locals(entries: seq<Entry>): seq<byte> {
    if entries == [] then [] else Locals(entries[..|entries| - 1]) + Local(entries[|entries| - 1])
  }

  function Centrals(entries: seq<Entry>): seq<byte> {
    if entries == [] then []
    else
      var before := entries[..|entries| - 1];
      var e := entries[|entries| - 1];
      Centrals(before) + CentralHeader(e, |Locals(before)|) + e.name
  }

  /** What the producer returns. */
  function Archive(entries: seq<Entry>): seq<byte> {
    Locals(entries) + Centrals(entries) + EndRecord(|entries|, |Centrals(entries)|, |Locals(entries)|)
  }

  function ItemOf(e: Entry, offset: nat): Item {
    Item(e.name, 0, e.compression, e.crc, |e.data|, e.fileSize, e.attributes, offset)
  }

  // ---- signatures ----

  predicate EndSignature(raw: seq<byte>, p: nat) {
    p + 4 <= |raw| && raw[p] == 0x50 && raw[p + 1] == 0x4B && raw[p + 2] == 5 && raw[p + 3] == 6
  }

  predicate CentralSignature(raw: seq<byte>, p: nat) {
    p + 4 <= |raw| && raw[p] == 0x50 && raw[p + 1] == 0x4B && raw[p + 2] == 1 && raw[p + 3] == 2
  }

  /** `raw.rfind` of the end signature from `low` on. */
  ghost predicate LastSignature(raw: seq<byte>, low: nat, end: nat) {
    low <= end && EndSignature(raw, end) && forall p: nat :: end < p < |raw| ==> !EndSignature(raw, p)
  }

  method FindEnd(raw: seq<byte>, low: nat) returns (end: Option<nat>)
    ensures end.Some? ==> LastSignature(raw, low, end.value)
    ensures end.None? ==> forall p: nat :: low <= p < |raw| ==> !EndSignature(raw, p)
  {
    var p := |raw|;
    while p > low
      invariant forall q: nat :: p <= q < |raw| ==> !EndSignature(raw, q)
    {
      p := p - 1;
      if EndSignature(raw, p) {
        return Some(p);
      }
    }
    end := None;
  }

  lemma SmallFields(count: nat, size: nat, offset: nat)
    requires count <= MAX_FILES + 1 && size + offset <= MAX_ARCHIVE
    ensures B1(count) < 20 && B3(size) <= 4 && B3(offset) <= 4
  {
  }

  /**
    In an archive of at most 64 MiB and 5001 members, without a comment, no part of the end record after its start
    can be mistaken for its signature: the counts, the size and the offset are all too small to contain it.
   */
  lemma EndRecordIsUnambiguous(raw: seq<byte>, count: nat, size: nat, offset: nat)
    requires |raw| >= 22 && raw[|raw| - 22..] == EndRecord(count, size, offset)
    requires count <= MAX_FILES + 1 && size + offset <= MAX_ARCHIVE
    ensures LastSignature(raw, 0, |raw| - 22)
  {
    var end := |raw| - 22;
    var h := EndRecord(count, size, offset);
    assert forall k :: 0 <= k < 22 ==> raw[end + k] == h[k];
    SmallFields(count, size, offset);
    forall p: nat | end < p < |raw| ensures !EndSignature(raw, p) {
      if p + 4 <= |raw| {
        assert raw[p] == h[p - end] && raw[p + 1] == h[p - end + 1] && raw[p + 2] == h[p - end + 2]
               && raw[p + 3] == h[p - end + 3];
      }
    }
  }

  // ---- the walk ----

  function NextHeader(raw: seq<byte>, p: nat): (next: nat)
    requires p + 46 <= |raw|
    ensures next >= p + 46
  {
    p + 46 + U16(raw, p + 28) + U16(raw, p + 30) + U16(raw, p + 32)
  }

  /** Exactly `n` directory headers lie end to end from `p` to `end`. */
  ghost predicate Tiles(raw: seq<byte>, p: nat, end: nat, n: nat)
    decreases n
  {
    if n == 0 then p == end
    else
      && end <= |raw| && p + 46 <= end && CentralSignature(raw, p) && NextHeader(raw, p) <= end
      && Tiles(raw, NextHeader(raw, p), end, n - 1)
  }

  /** The end record at `end` is that of a single-disk archive whose directory fills the bytes before it. */
  predicate EndRecordFits(raw: seq<byte>, end: nat) {
    && end + 22 <= |raw|
    && U16(raw, end + 4) == 0 && U16(raw, end + 6) == 0 && U16(raw, end + 8) == U16(raw, end + 10)
    && 1 <= U16(raw, end + 10) <= MAX_FILES + 1
    && end + 22 + U16(raw, end + 20) == |raw|
    && U32(raw, end + 16) + U32(raw, end + 12) == end
  }

  function WindowStart(raw: seq<byte>): nat {
    if |raw| <= END_WINDOW then 0 else |raw| - END_WINDOW
  }

  /** What the walk accepts: the last end record in the window fits, and its headers tile the directory. */
  ghost predicate SoundDirectory(raw: seq<byte>, end: nat) {
    && LastSignature(raw, WindowStart(raw), end) && EndRecordFits(raw, end)
    && Tiles(raw, U32(raw, end + 16), end, U16(raw, end + 10))
  }

  /** A tiling has as many headers as fit. */
  lemma {:induction false} TilesLength(raw: seq<byte>, p: nat, end: nat, n: nat)
    requires Tiles(raw, p, end, n)
    ensures p + 46 * n <= end
    decreases n
  {
    if n > 0 {
      TilesLength(raw, NextHeader(raw, p), end, n - 1);
    }
  }

  /** `_central_directory`: it ends on any bytes and accepts exactly the sound directories. */
  method CentralDirectory(raw: seq<byte>) returns (r: Result<nat>)
    ensures r.Success? <==> exists end: nat :: SoundDirectory(raw, end)
    ensures forall end: nat :: SoundDirectory(raw, end) ==> r == Success(U32(raw, end + 16))
  {
    var found := FindEnd(raw, WindowStart(raw));
    if found.None? {
      return Failure("backup_invalid");
    }
    var end := found.value;
    assert forall e: nat :: SoundDirectory(raw, e) ==> e == end;
    if !EndRecordFits(raw, end) {
      return Failure("backup_invalid");
    }
    var count, offset := U16(raw, end + 10), U32(raw, end + 16);
    var tiled := Walk(raw, offset, end, count);
    if !tiled {
      return Failure("backup_invalid");
    }
    assert SoundDirectory(raw, end);
    r := Success(offset);
  }

  /** The loop of `_central_directory`. */
  method Walk(raw: seq<byte>, offset: nat, end: nat, count: nat) returns (ok: bool)
    requires offset <= end <= |raw| && count <= MAX_FILES + 1
    ensures ok <==> Tiles(raw, offset, end, count)
  {
    var position, actual: nat := offset, 0;
    while position < end
      invariant position <= end && actual <= MAX_FILES + 1
      invariant Tiles(raw, offset, end, count) <==> actual <= count && Tiles(raw, position, end, count - actual)
      decreases end - position
    {
      if position + 46 > end || !CentralSignature(raw, position) {
        return false;
      }
      var next := NextHeader(raw, position);
      if actual < count && next <= end {
        assert Tiles(raw, position, end, count - actual) <==> Tiles(raw, next, end, count - actual - 1);
      }
      position := next;
      actual := actual + 1;
      if actual > MAX_FILES + 1 || position > end {
        return false;
      }
    }
    ok := position == end && actual == count;
  }

  // ---- the producer's layout ----

  predicate At(raw: seq<byte>, p: nat, s: seq<byte>) {
    p + |s| <= |raw| && raw[p..p + |s|] == s
  }

  lemma AtIndex(raw: seq<byte>, p: nat, s: seq<byte>)
    requires At(raw, p, s)
    ensures forall k :: 0 <= k < |s| ==> raw[p + k] == s[k]
  {
    forall k | 0 <= k < |s| ensures raw[p + k] == s[k] {
      assert raw[p..p + |s|][k] == s[k];
    }
  }

  lemma AtParts(raw: seq<byte>, p: nat, a: seq<byte>, b: seq<byte>)
    requires At(raw, p, a + b)
    ensures At(raw, p, a) && At(raw, p + |a|, b)
  {
    var whole := raw[p..p + |a + b|];
    assert raw[p..p + |a|] == whole[..|a|];
    assert raw[p + |a|..p + |a| + |b|] == whole[|a|..];
  }

  lemma AtU16(raw: seq<byte>, p: nat, s: seq<byte>, k: nat)
    requires At(raw, p, s) && k + 2 <= |s|
    ensures U16(raw, p + k) == U16(s, k)
  {
    AtIndex(raw, p, s);
    assert raw[p + (k + 1)] == s[k + 1];
  }

  lemma AtU32(raw: seq<byte>, p: nat, s: seq<byte>, k: nat)
    requires At(raw, p, s) && k + 4 <= |s|
    ensures U32(raw, p + k) == U32(s, k)
  {
    AtIndex(raw, p, s);
    assert raw[p + (k + 1)] == s[k + 1] && raw[p + (k + 2)] == s[k + 2] && raw[p + (k + 3)] == s[k + 3];
  }

  /** What the archive reader takes from a directory header. */
  function ItemAt(raw: seq<byte>, p: nat): Item
    requires p + 46 <= |raw| && p + 46 + U16(raw, p + 28) <= |raw|
  {
    Item(raw[p + 46..p + 46 + U16(raw, p + 28)], U16(raw, p + 8), U16(raw, p + 10), U32(raw, p + 16), U32(raw, p + 20),
         U32(raw, p + 24), U32(raw, p + 38), U32(raw, p + 42))
  }

  /** The members of a directory, in order. */
  function Items(raw: seq<byte>, p: nat, end: nat, n: nat): seq<Item>
    requires Tiles(raw, p, end, n)
    decreases n
  {
    if n == 0 then [] else [ItemAt(raw, p)] + Items(raw, NextHeader(raw, p), end, n - 1)
  }

  /** One more header extends a tiling and its list of members. */
  lemma {:induction false} OneMoreHeader(raw: seq<byte>, p: nat, mid: nat, n: nat)
    requires Tiles(raw, p, mid, n) && mid + 46 <= |raw| && CentralSignature(raw, mid) && NextHeader(raw, mid) <= |raw|
    ensures Tiles(raw, p, NextHeader(raw, mid), n + 1)
    ensures Items(raw, p, NextHeader(raw, mid), n + 1) == Items(raw, p, mid, n) + [ItemAt(raw, mid)]
    decreases n
  {
    var end := NextHeader(raw, mid);
    if n == 0 {
      assert Tiles(raw, end, end, 0);
      assert Items(raw, end, end, 0) == [];
    } else {
      var q := NextHeader(raw, p);
      TilesLength(raw, q, mid, n - 1);
      OneMoreHeader(raw, q, mid, n - 1);
      assert Items(raw, p, end, n + 1) == [ItemAt(raw, p)] + Items(raw, q, end, n);
    }
  }

  /** The fields of a written directory header. */
  lemma CentralFields(e: Entry, offset: nat)
    requires Writable(e) && offset < 0x1_0000_0000
    ensures var h := CentralHeader(e, offset);
            && U16(h, 8) == 0 && U16(h, 10) == e.compression && U16(h, 28) == |e.name| && U16(h, 30) == 0 == U16(h, 32)
            && U32(h, 16) == e.crc && U32(h, 20) == |e.data| && U32(h, 24) == e.fileSize
            && U32(h, 38) == e.attributes && U32(h, 42) == offset
  {
    hide B0, B1, B2, B3;
    Short(|e.name|);
    Short(e.compression);
    Long(e.crc);
    Long(|e.data|);
    Long(e.fileSize);
    Long(e.attributes);
    Long(offset);
  }

  lemma CentralStart(e: Entry, offset: nat)
    ensures CentralSignature(CentralHeader(e, offset), 0)
  {
    var h := CentralHeader(e, offset);
    assert h[0] == 0x50;
    assert h[1] == 0x4B;
    assert h[2] == 1;
    assert h[3] == 2;
  }

  /** Reading back a written directory header. */
  lemma CentralReadBack(raw: seq<byte>, p: nat, e: Entry, offset: nat)
    requires Writable(e) && offset < 0x1_0000_0000 && At(raw, p, CentralHeader(e, offset) + e.name)
    ensures p + 46 + |e.name| <= |raw| && CentralSignature(raw, p) && NextHeader(raw, p) == p + 46 + |e.name|
    ensures ItemAt(raw, p) == ItemOf(e, offset)
  {
    var h := CentralHeader(e, offset);
    CentralFields(e, offset);
    CentralStart(e, offset);
    hide CentralHeader, U16, U32;
    AtParts(raw, p, h, e.name);
    AtIndex(raw, p, h);
    assert raw[p + 0] == h[0] && raw[p + 1] == h[1] && raw[p + 2] == h[2] && raw[p + 3] == h[3];
    AtU16(raw, p, h, 8);
    AtU16(raw, p, h, 10);
    AtU16(raw, p, h, 28);
    AtU16(raw, p, h, 30);
    AtU16(raw, p, h, 32);
    AtU32(raw, p, h, 16);
    AtU32(raw, p, h, 20);
    AtU32(raw, p, h, 24);
    AtU32(raw, p, h, 38);
    AtU32(raw, p, h, 42);
  }

  function ItemsOf(entries: seq<Entry>): seq<Item> {
    if entries == [] then []
    else
      var before := entries[..|entries| - 1];
      ItemsOf(before) + [ItemOf(entries[|entries| - 1], |Locals(before)|)]
  }

  lemma OneMoreEntry(raw: seq<byte>, base: nat, before: seq<Entry>, e: Entry)
    requires Writable(e) && |Locals(before)| < 0x1_0000_0000
    requires var mid := base + |Centrals(before)|;
             && Tiles(raw, base, mid, |before|) && Items(raw, base, mid, |before|) == ItemsOf(before)
             && At(raw, mid, CentralHeader(e, |Locals(before)|) + e.name)
    ensures var end := base + |Centrals(before)| + 46 + |e.name|;
            && Tiles(raw, base, end, |before| + 1)
            && Items(raw, base, end, |before| + 1) == ItemsOf(before) + [ItemOf(e, |Locals(before)|)]
  {
    hide *;
    var mid := base + |Centrals(before)|;
    CentralReadBack(raw, mid, e, |Locals(before)|);
    OneMoreHeader(raw, base, mid, |before|);
  }

  lemma {:induction false} CentralsTile(raw: seq<byte>, base: nat, entries: seq<Entry>)
    requires forall e :: e in entries ==> Writable(e)
    requires At(raw, base, Centrals(entries)) && |Locals(entries)| < 0x1_0000_0000
    ensures Tiles(raw, base, base + |Centrals(entries)|, |entries|)
    ensures Items(raw, base, base + |Centrals(entries)|, |entries|) == ItemsOf(entries)
  {
    hide At, Writable, CentralHeader, Local;
    if entries == [] {
      assert Tiles(raw, base, base, 0) && Items(raw, base, base, 0) == [];
    } else {
      hide Tiles, Items;
      var before, e := entries[..|entries| - 1], entries[|entries| - 1];
      var offset := |Locals(before)|;
      assert Centrals(entries) == Centrals(before) + (CentralHeader(e, offset) + e.name);
      AtParts(raw, base, Centrals(before), CentralHeader(e, offset) + e.name);
      CentralsTile(raw, base, before);
      OneMoreEntry(raw, base, before, e);
    }
  }

  /** The fields of a written end record. */
  lemma EndFields(count: nat, size: nat, offset: nat)
    requires count < 0x1_0000 && size < 0x1_0000_0000 && offset < 0x1_0000_0000
    ensures var h := EndRecord(count, size, offset);
            && U16(h, 4) == 0 == U16(h, 6) && U16(h, 8) == count == U16(h, 10) && U32(h, 12) == size
               && U32(h, 16) == offset && U16(h, 20) == 0
  {
    hide B0, B1, B2, B3;
    Short(count);
    Long(size);
    Long(offset);
  }

  lemma EndReadBack(raw: seq<byte>, end: nat, count: nat, size: nat, offset: nat)
    requires 1 <= count <= MAX_FILES + 1 && size + offset <= MAX_ARCHIVE
    requires At(raw, end, EndRecord(count, size, offset)) && end + 22 == |raw| && offset + size == end
    ensures EndRecordFits(raw, end) && U32(raw, end + 16) == offset && U16(raw, end + 10) == count
  {
    var h := EndRecord(count, size, offset);
    EndFields(count, size, offset);
    hide EndRecord, U16, U32;
    AtU16(raw, end, h, 4);
    AtU16(raw, end, h, 6);
    AtU16(raw, end, h, 8);
    AtU16(raw, end, h, 10);
    AtU32(raw, end, h, 12);
    AtU32(raw, end, h, 16);
    AtU16(raw, end, h, 20);
  }

  lemma ArchiveParts(entries: seq<Entry>)
    ensures var raw, start, size := Archive(entries), |Locals(entries)|, |Centrals(entries)|;
            && |raw| == start + size + 22 && At(raw, 0, Locals(entries)) && At(raw, start, Centrals(entries))
            && At(raw, start + size, EndRecord(|entries|, size, start))
            && raw[|raw| - 22..] == EndRecord(|entries|, size, start)
  {
    hide Locals, Centrals, EndRecord;
    var raw, start, size := Archive(entries), |Locals(entries)|, |Centrals(entries)|;
    assert raw[start + size..] == EndRecord(|entries|, size, start);
    assert raw[start..start + size] == Centrals(entries);
    assert raw[..start] == Locals(entries);
  }

  /** The directory of `raw` is sound, starts at `start` and lists exactly these entries. */
  ghost predicate Lists(raw: seq<byte>, start: nat, end: nat, entries: seq<Entry>) {
    && SoundDirectory(raw, end) && U32(raw, end + 16) == start && U16(raw, end + 10) == |entries|
    && Items(raw, start, end, |entries|) == ItemsOf(entries)
  }

  /** The walk accepts every archive the producer writes, and finds its members. */
  lemma ProducedIsSound(entries: seq<Entry>)
    requires 1 <= |entries| <= MAX_FILES + 1 && |Archive(entries)| <= MAX_ARCHIVE
    requires forall e :: e in entries ==> Writable(e)
    ensures Lists(Archive(entries), |Locals(entries)|, |Locals(entries)| + |Centrals(entries)|, entries)
  {
    hide *;
    var raw, start, size := Archive(entries), |Locals(entries)|, |Centrals(entries)|;
    ArchiveParts(entries);
    InWindow(raw, |entries|, size, start);
    EndReadBack(raw, start + size, |entries|, size, start);
    CentralsTile(raw, start, entries);
    ListsWhole(raw, start, start + size, entries);
  }

  lemma ListsWhole(raw: seq<byte>, start: nat, end: nat, entries: seq<Entry>)
    requires LastSignature(raw, WindowStart(raw), end) && EndRecordFits(raw, end)
    requires U32(raw, end + 16) == start && U16(raw, end + 10) == |entries|
    requires Tiles(raw, start, end, |entries|) && Items(raw, start, end, |entries|) == ItemsOf(entries)
    ensures Lists(raw, start, end, entries)
  {
  }

  lemma InWindow(raw: seq<byte>, count: nat, size: nat, offset: nat)
    requires |raw| >= 22 && raw[|raw| - 22..] == EndRecord(count, size, offset)
    requires count <= MAX_FILES + 1 && size + offset <= MAX_ARCHIVE
    ensures LastSignature(raw, WindowStart(raw), |raw| - 22)
  {
    EndRecordIsUnambiguous(raw, count, size, offset);
  }
}
