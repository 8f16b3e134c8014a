/** The manifest of a backup: which names it may list, its JSON text, and why that text can be read back. */
module BackupManifest {
  import opened Bytes
  import opened Enumeration
  import opened Wrappers
  import opened ZipDirectory

  const SCHEMA := "nightmerit.profile_backup.v1"
  const MAX_TOTAL: nat := 128 * 1024 * 1024
  const MAX_FILE: nat := 8 * 1024 * 1024
  const MAX_MANIFEST: nat := 2 * 1024 * 1024
  const STORES := {"analysis_history", "decision_lineage", "execution_lineage", "decision_forecast_evidence",
                   "field_observations", "outcome_evaluations"}
  const TOP := {"user_profile.json", "user_filters.json"}
  const DEVICES := {"CON", "PRN", "AUX", "NUL", "COM1", "COM2", "COM3", "COM4", "COM5", "COM6", "COM7", "COM8", "COM9",
                    "LPT1", "LPT2", "LPT3", "LPT4", "LPT5", "LPT6", "LPT7", "LPT8", "LPT9"}

  // ---- names ----

  predicate StemChar(c: char) {
    'A' <= c <= 'Z' || 'a' <= c <= 'z' || '0' <= c <= '9' || c == '_' || c == '-'
  }

  function Upper(c: char): char {
    if 'a' <= c <= 'z' then c - 'a' + 'A' else c
  }

  /** A document name: up to 200 plain characters that are no device name, and `.json`. */
  predicate DocumentName(s: string) {
    && 6 <= |s| <= 205 && s[|s| - 5..] == ".json"
    && var stem := s[..|s| - 5];
       && (forall i | 0 <= i < |stem| :: StemChar(stem[i]))
       && seq(|stem|, i requires 0 <= i < |stem| => Upper(stem[i])) !in DEVICES
  }

  predicate TopName(s: string) {
    s in TOP
  }

  predicate StoreName(s: string) {
    s in STORES
  }

  /** `_allowed`. */
  predicate Allowed(name: string) {
    TopName(name) || exists k | 0 <= k < |name| :: name[k] == '/' && StoreName(name[..k]) && DocumentName(name[k + 1..])
  }

  /** A character that JSON writes as itself. */
  predicate PlainChar(c: char) {
    ' ' <= c <= '~' && c != '"' && c != '\\'
  }

  predicate Plain(s: string) {
    forall i | 0 <= i < |s| :: PlainChar(s[i])
  }

  lemma StoresArePlain(s: string)
    requires StoreName(s)
    ensures Plain(s) && |s| <= 26
  {
  }

  lemma TopNamesArePlain(s: string)
    requires TopName(s)
    ensures Plain(s) && |s| <= 26
  {
  }

  lemma PlainConcat(a: string, b: string)
    requires Plain(a) && Plain(b)
    ensures Plain(a + b)
  {
  }

  lemma DocumentNameIsPlain(s: string)
    requires DocumentName(s)
    ensures |s| <= 205 && Plain(s)
  {
    var stem := s[..|s| - 5];
    assert Plain(stem) && Plain(".json");
    assert s == stem + ".json";
    PlainConcat(stem, ".json");
  }

  lemma AllowedIsShortAndPlain(name: string)
    requires Allowed(name)
    ensures |name| <= 232 && Plain(name)
  {
    hide TopName, StoreName, DocumentName, Plain;
    if TopName(name) {
      TopNamesArePlain(name);
    } else {
      var k :| 0 <= k < |name| && name[k] == '/' && StoreName(name[..k]) && DocumentName(name[k + 1..]);
      StoresArePlain(name[..k]);
      DocumentNameIsPlain(name[k + 1..]);
      Joined(name, k);
    }
  }

  lemma Joined(name: string, k: nat)
    requires k < |name| && name[k] == '/' && |name[..k]| <= 26 && |name[k + 1..]| <= 205 && Plain(name[..k])
             && Plain(name[k + 1..])
    ensures |name| <= 232 && Plain(name)
  {
    var store, rest := name[..k], name[k + 1..];
    PlainConcat(store, "/");
    PlainConcat(store + "/", rest);
    assert name == store + "/" + rest;
  }

  predicate Ascii(s: string) {
    forall i | 0 <= i < |s| :: s[i] < 128 as char
  }

  lemma AsciiConcat(a: string, b: string)
    requires Ascii(a) && Ascii(b)
    ensures Ascii(a + b)
  {
  }

  lemma PlainIsAscii(s: string)
    requires Plain(s)
    ensures Ascii(s)
  {
  }

  function Encode(s: string): (b: seq<byte>)
    ensures |b| == |s|
  {
    seq(|s|, i requires 0 <= i < |s| => (s[i] as nat) % 256)
  }

  lemma EncodeIsInjective(a: string, b: string)
    requires Ascii(a) && Ascii(b) && Encode(a) == Encode(b)
    ensures a == b
  {
    forall i | 0 <= i < |a| ensures a[i] == b[i] {
      assert Encode(a)[i] == Encode(b)[i];
    }
  }

  // ---- the manifest ----

  datatype Record = Record(size: nat, sha: string)

  datatype Manifest = Manifest(schema: string, version: string, createdAt: string, files: map<string, Record>)

  /** A SHA-256 in hexadecimal. */
  predicate HexDigest(s: string) {
    |s| == 64 && forall i | 0 <= i < |s| :: '0' <= s[i] <= '9' || 'a' <= s[i] <= 'f'
  }

  /** What a producer writes: versions and times that JSON writes as they are, allowed names, digests. */
  ghost predicate Regular(m: Manifest) {
    && Plain(m.schema) && Plain(m.version) && Plain(m.createdAt)
    && forall n :: n in m.files ==> Allowed(n) && HexDigest(m.files[n].sha)
  }

  function Decimal(n: nat): (s: string)
    ensures n < 10 ==> |s| == 1
  {
    if n < 10 then [('0' as int + n) as char] else Decimal(n / 10) + [('0' as int + n % 10) as char]
  }

  lemma DecimalLength(n: nat)
    requires n <= MAX_FILE
    ensures |Decimal(n)| <= 7
  {
    assert n < 10_000_000;
    assert |Decimal(n / 1_000_000)| == 1;
    assert n / 10 / 10 / 10 / 10 / 10 / 10 == n / 1_000_000;
    var a, b, c := n / 10, n / 10 / 10, n / 10 / 10 / 10;
    var d, e, f := c / 10, c / 10 / 10, c / 10 / 10 / 10;
    assert |Decimal(e)| <= 1 + |Decimal(f)|;
    assert |Decimal(d)| <= 1 + |Decimal(e)|;
    assert |Decimal(c)| <= 1 + |Decimal(d)|;
    assert |Decimal(b)| <= 1 + |Decimal(c)|;
    assert |Decimal(a)| <= 1 + |Decimal(b)|;
  }

  const QUOTE := "\""
  const COMMA := ","
  const SIZE_KEY := ": {\"size\": "
  const SHA_KEY := " \"sha256\": \""
  const HEAD := "{\"schema\": \""
  const VERSION_KEY := ", \"application_version\": \""
  const CREATED_KEY := ", \"created_at_utc\": \""
  const FILES_KEY := ", \"files\": {"
  const TAIL := "}}"

  function RecordText(name: string, r: Record): (s: string)
    ensures s != ""
  {
    QUOTE + name + QUOTE + SIZE_KEY + Decimal(r.size) + COMMA + SHA_KEY + r.sha + QUOTE + "}"
  }

  function RecordsText(order: seq<string>, files: map<string, Record>): string
    requires forall n :: n in order ==> n in files
  {
    if order == [] then ""
    else RecordText(order[0], files[order[0]]) + ((if |order| == 1 then "" else ", ") + RecordsText(order[1..], files))
  }

  function Headed(m: Manifest, rest: string): string {
    HEAD + (m.schema
            + (QUOTE + (VERSION_KEY
                        + (m.version + (QUOTE + (CREATED_KEY + (m.createdAt + (QUOTE + (FILES_KEY + rest)))))))))
  }

  /** `json.dumps` of a regular manifest, whose strings need no escapes. */
  function ManifestText(m: Manifest, order: seq<string>): string
    requires forall n :: n in order ==> n in m.files
  {
    Headed(m, RecordsText(order, m.files) + TAIL)
  }

  /** At most 333 bytes a file, separator included. */
  lemma {:induction false} RecordsAreShort(order: seq<string>, files: map<string, Record>)
    requires forall n :: n in order ==> n in files && Allowed(n) && files[n].size <= MAX_FILE && |files[n].sha| == 64
    ensures |RecordsText(order, files)| <= 333 * |order|
  {
    if order != [] {
      var first := order[0];
      assert first in order;
      RecordsAreShort(order[1..], files);
      AllowedIsShortAndPlain(first);
      DecimalLength(files[first].size);
    }
  }

  /** A manifest of at most 5000 allowed files fits its limit of 2 MiB, with 400,000 bytes to spare for the rest. */
  lemma ManifestFits(m: Manifest, order: seq<string>)
    requires |order| <= MAX_FILES && m.schema == SCHEMA && |m.version| + |m.createdAt| <= 400_000
    requires forall n :: n in order ==>
               n in m.files && Allowed(n) && m.files[n].size <= MAX_FILE && |m.files[n].sha| == 64
    ensures |ManifestText(m, order)| <= MAX_MANIFEST
  {
    RecordsAreShort(order, m.files);
  }

  // ---- reading the text back ----

  function FirstOf(s: string, c: char): (k: nat)
    ensures k <= |s|
  {
    if s == "" || s[0] == c then 0 else 1 + FirstOf(s[1..], c)
  }

  lemma {:induction false} FirstAfter(a: string, c: char, x: string)
    requires c !in a
    ensures FirstOf(a + [c] + x, c) == |a|
  {
    var s := a + [c] + x;
    if a != "" {
      assert s[0] == a[0];
      FirstAfter(a[1..], c, x);
      assert s[1..] == a[1..] + [c] + x;
    }
  }

  /** What stands before the first `c` determines where it ends. */
  lemma SplitAt(a: string, x: string, b: string, y: string, c: char)
    requires c !in a && c !in b && a + ([c] + x) == b + ([c] + y)
    ensures a == b && x == y
  {
    var s := a + ([c] + x);
    assert s == a + [c] + x == b + [c] + y;
    FirstAfter(a, c, x);
    FirstAfter(b, c, y);
    var k := FirstOf(s, c);
    assert a == s[..k] && b == (b + ([c] + y))[..k];
    assert x == s[k + 1..] && y == (b + ([c] + y))[k + 1..];
  }

  lemma Strip(p: string, x: string, y: string)
    requires p + x == p + y
    ensures x == y
  {
    assert x == (p + x)[|p|..] && y == (p + y)[|p|..];
  }

  lemma SameBefore(x: string, y: string, p: string)
    requires x + p == y + p
    ensures x == y
  {
    assert |x| == |y|;
    assert x == (x + p)[..|x|] && y == (y + p)[..|y|];
  }

  lemma {:induction false} DecimalIsDigits(n: nat, c: char)
    requires c in Decimal(n)
    ensures '0' <= c <= '9'
  {
    if n >= 10 && c in Decimal(n / 10) {
      DecimalIsDigits(n / 10, c);
    }
  }

  lemma {:induction false} DecimalIsInjective(a: nat, b: nat)
    requires Decimal(a) == Decimal(b)
    ensures a == b
  {
    var s, t := Decimal(a), Decimal(b);
    assert s[|s| - 1] == ('0' as int + a % 10) as char && t[|t| - 1] == ('0' as int + b % 10) as char;
    assert a % 10 == b % 10;
    DecimalIsLong(a);
    DecimalIsLong(b);
    if a >= 10 {
      assert Decimal(a / 10) == s[..|s| - 1] == t[..|t| - 1] == Decimal(b / 10);
      DecimalIsInjective(a / 10, b / 10);
    }
  }

  lemma DecimalIsLong(n: nat)
    ensures n >= 10 <==> |Decimal(n)| > 1
  {
  }

  lemma Unquoted(s: string)
    requires Plain(s) || HexDigest(s)
    ensures '"' !in s
  {
  }

  /** A record's text, as it is read. */
  function RecordRead(name: string, r: Record, x: string): string {
    QUOTE + (name + (QUOTE + (SIZE_KEY + (Decimal(r.size) + (COMMA + (SHA_KEY + (r.sha + (QUOTE + ("}" + x)))))))))
  }

  lemma RecordReads(name: string, r: Record, x: string)
    ensures RecordText(name, r) + x == RecordRead(name, r, x)
  {
    var d, k, s := Decimal(r.size), SIZE_KEY, SHA_KEY;
    assert QUOTE + name + QUOTE + k + d + COMMA + s + r.sha + QUOTE + "}" + x
        == QUOTE + (name + (QUOTE + (k + (d + (COMMA + (s + (r.sha + (QUOTE + ("}" + x)))))))));
  }

  lemma RecordSplits(n: string, r: Record, x: string, m: string, t: Record, y: string)
    requires Plain(n) && Plain(m) && HexDigest(r.sha) && HexDigest(t.sha)
    requires RecordText(n, r) + x == RecordText(m, t) + y
    ensures n == m && r == t && x == y
  {
    RecordReads(n, r, x);
    RecordReads(m, t, y);
    var a1, b1 := QUOTE + ("}" + x), QUOTE + ("}" + y);
    var a2, b2 := r.sha + a1, t.sha + b1;
    var a3, b3 := SHA_KEY + a2, SHA_KEY + b2;
    var a4, b4 := Decimal(r.size) + (COMMA + a3), Decimal(t.size) + (COMMA + b3);
    var a5, b5 := SIZE_KEY + a4, SIZE_KEY + b4;
    Strip(QUOTE, n + (QUOTE + a5), m + (QUOTE + b5));
    Unquoted(n);
    Unquoted(m);
    SplitAt(n, a5, m, b5, '"');
    Strip(SIZE_KEY, a4, b4);
    if ',' in Decimal(r.size) {
      DecimalIsDigits(r.size, ',');
    }
    if ',' in Decimal(t.size) {
      DecimalIsDigits(t.size, ',');
    }
    SplitAt(Decimal(r.size), a3, Decimal(t.size), b3, ',');
    DecimalIsInjective(r.size, t.size);
    Strip(SHA_KEY, a2, b2);
    Unquoted(r.sha);
    Unquoted(t.sha);
    SplitAt(r.sha, "}" + x, t.sha, "}" + y, '"');
    Strip("}", x, y);
  }

  /** The text of the records, from the first one. */
  lemma FirstRecord(o: seq<string>, f: map<string, Record>)
    requires o != [] && forall n :: n in o ==> n in f && Plain(n) && HexDigest(f[n].sha)
    ensures o[0] in o && RecordsText(o, f) != ""
    ensures RecordsText(o, f) == RecordText(o[0], f[o[0]]) + Others(o, f)
  {
    hide RecordText;
  }

  function Others(o: seq<string>, f: map<string, Record>): (x: string)
    requires o != [] && forall n :: n in o ==> n in f
    ensures |o| > 1 ==> x != ""
  {
    (if |o| == 1 then "" else ", ") + RecordsText(o[1..], f)
  }

  lemma {:induction false} RecordsAreRead(o: seq<string>, f: map<string, Record>, p: seq<string>,
                                          g: map<string, Record>)
    requires forall n :: n in o ==> n in f && Plain(n) && HexDigest(f[n].sha)
    requires forall n :: n in p ==> n in g && Plain(n) && HexDigest(g[n].sha)
    requires RecordsText(o, f) == RecordsText(p, g)
    ensures o == p && forall n :: n in o ==> f[n] == g[n]
  {
    hide RecordText, Plain, HexDigest;
    if o != [] {
      FirstRecord(o, f);
    }
    if p != [] {
      FirstRecord(p, g);
    }
    if o != [] && p != [] {
      RecordSplits(o[0], f[o[0]], Others(o, f), p[0], g[p[0]], Others(p, g));
      if |o| > 1 && |p| > 1 {
        Strip(", ", RecordsText(o[1..], f), RecordsText(p[1..], g));
      }
      RecordsAreRead(o[1..], f, p[1..], g);
      assert o == [o[0]] + o[1..] && p == [p[0]] + p[1..];
    }
  }

  lemma SameFiles(order: seq<string>, f: map<string, Record>, g: map<string, Record>)
    requires Listing(order, f.Keys) && Listing(order, g.Keys) && forall n :: n in order ==> f[n] == g[n]
    ensures f == g
  {
    assert forall n :: n in f <==> n in order;
  }

  /** The text of a regular manifest is that of no other manifest, in no other order. */
  lemma ManifestIsRead(m: Manifest, order: seq<string>, k: Manifest, other: seq<string>)
    requires Regular(m) && Regular(k) && Listing(order, m.files.Keys) && Listing(other, k.files.Keys)
    requires ManifestText(m, order) == ManifestText(k, other)
    ensures m == k && order == other
  {
    var r, s := RecordsText(order, m.files), RecordsText(other, k.files);
    HeaderIsRead(m, r + TAIL, k, s + TAIL);
    SameBefore(r, s, TAIL);
    forall n | n in order ensures n in m.files && Plain(n) && HexDigest(m.files[n].sha) {
      AllowedIsShortAndPlain(n);
    }
    forall n | n in other ensures n in k.files && Plain(n) && HexDigest(k.files[n].sha) {
      AllowedIsShortAndPlain(n);
    }
    RecordsAreRead(order, m.files, other, k.files);
    SameFiles(order, m.files, k.files);
  }

  lemma HeaderIsRead(m: Manifest, r: string, k: Manifest, s: string)
    requires Plain(m.schema) && Plain(m.version) && Plain(m.createdAt) && Plain(k.schema) && Plain(k.version)
             && Plain(k.createdAt)
    requires Headed(m, r) == Headed(k, s)
    ensures m.schema == k.schema && m.version == k.version && m.createdAt == k.createdAt && r == s
  {
    Unquoted(m.schema);
    Unquoted(m.version);
    Unquoted(m.createdAt);
    Unquoted(k.schema);
    Unquoted(k.version);
    Unquoted(k.createdAt);
    hide Plain;
    var a1, b1 := FILES_KEY + r, FILES_KEY + s;
    var a2, b2 := CREATED_KEY + (m.createdAt + (QUOTE + a1)), CREATED_KEY + (k.createdAt + (QUOTE + b1));
    var a3, b3 := VERSION_KEY + (m.version + (QUOTE + a2)), VERSION_KEY + (k.version + (QUOTE + b2));
    Strip(HEAD, m.schema + (QUOTE + a3), k.schema + (QUOTE + b3));
    SplitAt(m.schema, a3, k.schema, b3, '"');
    Strip(VERSION_KEY, m.version + (QUOTE + a2), k.version + (QUOTE + b2));
    SplitAt(m.version, a2, k.version, b2, '"');
    Strip(CREATED_KEY, m.createdAt + (QUOTE + a1), k.createdAt + (QUOTE + b1));
    SplitAt(m.createdAt, a1, k.createdAt, b1, '"');
    Strip(FILES_KEY, r, s);
  }

  // ---- its bytes ----

  lemma {:induction false} DecimalIsAscii(n: nat)
    ensures Ascii(Decimal(n))
  {
    forall i | 0 <= i < |Decimal(n)| ensures Decimal(n)[i] < 128 as char {
      DecimalIsDigits(n, Decimal(n)[i]);
    }
  }

  lemma RecordIsAscii(name: string, r: Record)
    requires Plain(name) && HexDigest(r.sha)
    ensures Ascii(RecordText(name, r))
  {
    DecimalIsAscii(r.size);
    assert Ascii(QUOTE) && Ascii(SIZE_KEY) && Ascii(COMMA) && Ascii(SHA_KEY) && Ascii("}") && Ascii(name)
           && Ascii(r.sha);
    hide Ascii, Plain, HexDigest, Decimal;
    AsciiConcat(QUOTE, name);
    AsciiConcat(QUOTE + name, QUOTE);
    AsciiConcat(QUOTE + name + QUOTE, SIZE_KEY);
    var a := QUOTE + name + QUOTE + SIZE_KEY;
    AsciiConcat(a, Decimal(r.size));
    AsciiConcat(a + Decimal(r.size), COMMA);
    AsciiConcat(a + Decimal(r.size) + COMMA, SHA_KEY);
    var b := a + Decimal(r.size) + COMMA + SHA_KEY;
    AsciiConcat(b, r.sha);
    AsciiConcat(b + r.sha, QUOTE);
    AsciiConcat(b + r.sha + QUOTE, "}");
  }

  lemma {:induction false} RecordsAreAscii(order: seq<string>, files: map<string, Record>)
    requires forall n :: n in order ==> n in files && Plain(n) && HexDigest(files[n].sha)
    ensures Ascii(RecordsText(order, files))
  {
    hide RecordText, Plain, HexDigest;
    if order != [] {
      assert order[0] in order;
      RecordIsAscii(order[0], files[order[0]]);
      RecordsAreAscii(order[1..], files);
    }
  }

  lemma ManifestIsAscii(m: Manifest, order: seq<string>)
    requires Regular(m) && Listing(order, m.files.Keys)
    ensures Ascii(ManifestText(m, order))
  {
    forall n | n in order ensures n in m.files && Plain(n) && HexDigest(m.files[n].sha) {
      AllowedIsShortAndPlain(n);
    }
    RecordsAreAscii(order, m.files);
    AsciiConcat(RecordsText(order, m.files), TAIL);
    AsciiHead(m, RecordsText(order, m.files) + TAIL);
  }

  lemma AsciiField(key: string, value: string, rest: string)
    requires Ascii(key) && Plain(value) && Ascii(rest)
    ensures Ascii(key + (value + (QUOTE + rest)))
  {
    AsciiConcat(QUOTE, rest);
    PlainIsAscii(value);
    AsciiConcat(value, QUOTE + rest);
    AsciiConcat(key, value + (QUOTE + rest));
  }

  lemma KeysAreAscii()
    ensures Ascii(HEAD) && Ascii(VERSION_KEY) && Ascii(CREATED_KEY) && Ascii(FILES_KEY)
  {
  }

  lemma AsciiHead(m: Manifest, rest: string)
    requires Regular(m) && Ascii(rest)
    ensures Ascii(Headed(m, rest))
  {
    KeysAreAscii();
    hide Ascii, Plain;
    AsciiConcat(FILES_KEY, rest);
    AsciiField(CREATED_KEY, m.createdAt, FILES_KEY + rest);
    AsciiField(VERSION_KEY, m.version, CREATED_KEY + (m.createdAt + (QUOTE + (FILES_KEY + rest))));
    AsciiField(HEAD, m.schema,
               VERSION_KEY + (m.version + (QUOTE + (CREATED_KEY + (m.createdAt + (QUOTE + (FILES_KEY + rest)))))));
  }

  /** The bytes are those of this manifest in some order. */
  ghost predicate Writes(m: Manifest, order: seq<string>, b: seq<byte>) {
    Regular(m) && Listing(order, m.files.Keys) && Encode(ManifestText(m, order)) == b
  }

  /** The bytes of a regular manifest are those of no other manifest. */
  lemma BytesAreRead(m: Manifest, order: seq<string>, k: Manifest, other: seq<string>, b: seq<byte>)
    requires Writes(m, order, b) && Writes(k, other, b)
    ensures m == k && order == other
  {
    hide ManifestText, Encode, Regular;
    ManifestIsAscii(m, order);
    ManifestIsAscii(k, other);
    EncodeIsInjective(ManifestText(m, order), ManifestText(k, other));
    ManifestIsRead(m, order, k, other);
  }
}
