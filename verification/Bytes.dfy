/**
  Unsigned integers as byte strings: fixed-width big-endian records (the index tables) and
  little-endian fields (the ZIP headers), and tables of fixed-width records.
 */
module Bytes {
  type byte = n: nat | n < 256

  function Pow256(width: nat): (r: nat)
    ensures r > 0
  {
    if width == 0 then 1 else 256 * Pow256(width - 1)
  }

  lemma Pow256Add(a: nat, b: nat)
    ensures Pow256(a + b) == Pow256(a) * Pow256(b)
  {
    if b == 0 {
    } else {
      Pow256Add(a, b - 1);
      assert Pow256(a + b) == 256 * (Pow256(a) * Pow256(b - 1));
    }
  }

  function BigEndian(n: nat, width: nat): (b: seq<byte>)
    ensures |b| == width
  {
    if width == 0 then [] else BigEndian(n / 256, width - 1) + [n % 256]
  }

  function FromBigEndian(b: seq<byte>): (n: nat)
  {
    if b == [] then 0 else FromBigEndian(b[..|b| - 1]) * 256 + b[|b| - 1]
  }

  lemma {:induction false} FromBigEndianRange(b: seq<byte>)
    ensures FromBigEndian(b) < Pow256(|b|)
  {
    if b != [] {
      FromBigEndianRange(b[..|b| - 1]);
    }
  }

  lemma {:induction false} BigEndianRoundTrip(n: nat, width: nat)
    requires n < Pow256(width)
    ensures FromBigEndian(BigEndian(n, width)) == n
  {
    if width > 0 {
      BigEndianRoundTrip(n / 256, width - 1);
      var b := BigEndian(n, width);
      assert b[..|b| - 1] == BigEndian(n / 256, width - 1);
    }
  }

  lemma {:induction false} BigEndianInverse(b: seq<byte>)
    ensures BigEndian(FromBigEndian(b), |b|) == b
  {
    if b != [] {
      BigEndianInverse(b[..|b| - 1]);
      var n := FromBigEndian(b);
      assert n / 256 == FromBigEndian(b[..|b| - 1]) && n % 256 == b[|b| - 1];
      assert b == b[..|b| - 1] + [b[|b| - 1]];
    }
  }

  lemma {:induction false} FromBigEndianConcat(a: seq<byte>, b: seq<byte>)
    ensures FromBigEndian(a + b) == FromBigEndian(a) * Pow256(|b|) + FromBigEndian(b)
  {
    if b == [] {
      assert a + b == a;
    } else {
      var c := a + b;
      var front := b[..|b| - 1];
      assert c[..|c| - 1] == a + front;
      FromBigEndianConcat(a, front);
      assert FromBigEndian(a) * Pow256(|b|) == FromBigEndian(a) * Pow256(|front|) * 256;
    }
  }

  /** Two adjacent big-endian fields are one big-endian number, as in `struct.pack('>QI', hi, lo)`. */
  lemma {:induction false} BigEndianPair(hi: nat, a: nat, lo: nat, b: nat)
    requires hi < Pow256(a) && lo < Pow256(b)
    ensures hi * Pow256(b) + lo < Pow256(a + b)
    ensures BigEndian(hi, a) + BigEndian(lo, b) == BigEndian(hi * Pow256(b) + lo, a + b)
  {
    var s := BigEndian(hi, a) + BigEndian(lo, b);
    FromBigEndianConcat(BigEndian(hi, a), BigEndian(lo, b));
    BigEndianRoundTrip(hi, a);
    BigEndianRoundTrip(lo, b);
    BigEndianInverse(s);
    FromBigEndianRange(s);
  }

  /** Python's order on byte strings of one length. */
  predicate LexLess(a: seq<byte>, b: seq<byte>)
    requires |a| == |b|
  {
    a != [] && (a[0] < b[0] || (a[0] == b[0] && LexLess(a[1..], b[1..])))
  }

  lemma {:induction false} LexLessLast(a: seq<byte>, b: seq<byte>)
    requires |a| == |b| > 0
    ensures var m := |a| - 1;
            LexLess(a, b) <==> LexLess(a[..m], b[..m]) || (a[..m] == b[..m] && a[m] < b[m])
  {
    var m := |a| - 1;
    if m > 0 {
      LexLessLast(a[1..], b[1..]);
      assert a[1..][..m - 1] == a[..m][1..] && b[1..][..m - 1] == b[..m][1..];
      assert a[..m] == [a[0]] + a[..m][1..] && b[..m] == [b[0]] + b[..m][1..];
    } else {
      assert a[1..] == [] && a[..m] == [] && b[..m] == [];
    }
  }

  /** Comparing fixed-width records byte by byte is comparing the numbers they encode. */
  lemma {:induction false} LexLessIsNumericOrder(a: seq<byte>, b: seq<byte>)
    requires |a| == |b|
    ensures LexLess(a, b) <==> FromBigEndian(a) < FromBigEndian(b)
    ensures a == b <==> FromBigEndian(a) == FromBigEndian(b)
  {
    BigEndianInverse(a);
    BigEndianInverse(b);
    if a != [] {
      var m := |a| - 1;
      LexLessLast(a, b);
      LexLessIsNumericOrder(a[..m], b[..m]);
    }
  }

  // ---- tables of fixed-width records ----

  lemma RecordBounds(i: nat, count: nat, width: nat)
    requires i < count
    ensures i * width + width == (i + 1) * width <= count * width
  {
    assert (i + 1) * width == i * width + width;
    assert count * width == (i + 1) * width + (count - i - 1) * width;
    assert (count - i - 1) * width >= 0;
  }

  /** The number stored in record `i`. */
  function RecordAt(table: seq<byte>, width: nat, i: nat): (n: nat)
    requires (i + 1) * width <= |table|
  {
    assert i * width + width == (i + 1) * width;
    FromBigEndian(table[i * width..(i + 1) * width])
  }

  function Pack(records: seq<nat>, width: nat): (table: seq<byte>)
    ensures |table| == |records| * width
  {
    if records == [] then [] else
      var m := |records| - 1;
      assert m * width + width == |records| * width;
      Pack(records[..m], width) + BigEndian(records[m], width)
  }

  lemma {:induction false} PackedRecord(records: seq<nat>, width: nat, i: nat)
    requires i < |records|
    requires forall k :: 0 <= k < |records| ==> records[k] < Pow256(width)
    ensures (i + 1) * width <= |Pack(records, width)|
    ensures RecordAt(Pack(records, width), width, i) == records[i]
  {
    hide Pow256, BigEndian;
    var m := |records| - 1;
    var table := Pack(records, width);
    var front := Pack(records[..m], width);
    RecordBounds(i, |records|, width);
    assert m * width + width == |records| * width;
    if i == m {
      BigEndianRoundTrip(records[m], width);
      assert table[i * width..(i + 1) * width] == BigEndian(records[m], width);
    } else {
      RecordBounds(i, m, width);
      PackedRecord(records[..m], width, i);
      assert table[i * width..(i + 1) * width] == front[i * width..(i + 1) * width];
    }
  }

  // ---- records that end in a 32-bit field ----

  /** The record whose last four bytes are `low`. */
  function Join(high: nat, low: nat): (record: nat) {
    high * 0x1_0000_0000 + low
  }

  function HighPart(record: nat): (high: nat) {
    record / 0x1_0000_0000
  }

  function LowPart(record: nat): (low: nat)
    ensures low < 0x1_0000_0000
  {
    record % 0x1_0000_0000
  }

  lemma PartsOfJoin(high: nat, low: nat)
    requires low < 0x1_0000_0000
    ensures HighPart(Join(high, low)) == high && LowPart(Join(high, low)) == low
  {
  }

  lemma WordIsFourBytes()
    ensures Pow256(4) == 0x1_0000_0000
  {
    assert Pow256(1) == 256 && Pow256(2) == 65536 && Pow256(3) == 16777216;
  }

  /** All but the last four bytes of record `i`, as `struct.unpack('>QI', ...)` reads them. */
  function HighField(table: seq<byte>, width: nat, i: nat): (n: nat)
    requires width >= 4 && (i + 1) * width <= |table|
  {
    assert i * width + width == (i + 1) * width;
    FromBigEndian(table[i * width..(i + 1) * width - 4])
  }

  /** The last four bytes of record `i`. */
  function LowField(table: seq<byte>, width: nat, i: nat): (n: nat)
    requires width >= 4 && (i + 1) * width <= |table|
  {
    assert i * width + width == (i + 1) * width;
    FromBigEndian(table[(i + 1) * width - 4..(i + 1) * width])
  }

  lemma FieldsOfRecord(table: seq<byte>, width: nat, i: nat)
    requires width >= 4 && (i + 1) * width <= |table|
    ensures HighField(table, width, i) == HighPart(RecordAt(table, width, i))
    ensures LowField(table, width, i) == LowPart(RecordAt(table, width, i))
  {
    NextStart(i, width);
    PartsBetween(table, i * width, (i + 1) * width);
  }

  lemma NextStart(i: nat, width: nat)
    ensures i * width + width == (i + 1) * width
  {
  }

  lemma PartsBetween(table: seq<byte>, low: nat, high: nat)
    requires low + 4 <= high <= |table|
    ensures FromBigEndian(table[low..high - 4]) == HighPart(FromBigEndian(table[low..high]))
    ensures FromBigEndian(table[high - 4..high]) == LowPart(FromBigEndian(table[low..high]))
  {
    var record := table[low..high];
    PartsOfBytes(record, high - low);
    assert record[..high - low - 4] == table[low..high - 4];
    assert record[high - low - 4..] == table[high - 4..high];
  }

  lemma PartsOfBytes(record: seq<byte>, width: nat)
    requires 4 <= width == |record|
    ensures FromBigEndian(record[..width - 4]) == HighPart(FromBigEndian(record))
    ensures FromBigEndian(record[width - 4..]) == LowPart(FromBigEndian(record))
  {
    var high, low := record[..width - 4], record[width - 4..];
    assert record == high + low;
    FromBigEndianConcat(high, low);
    FromBigEndianRange(low);
    WordIsFourBytes();
    PartsOfJoin(FromBigEndian(high), FromBigEndian(low));
  }
}
