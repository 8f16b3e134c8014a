/**
  A library that keeps every promise of `Lawful`, and a backup that it makes and then refuses. The promises are
  therefore consistent, and the condition of the round trip is not always met.
 */
module RefusedBackup {
  import opened BackupManifest
  import opened Bytes
  import opened ProfileBackup
  import opened Wrappers
  import opened ZipDirectory
  import opened ZipMember

  /** The manifest whose text the bytes are, if there is one. */
  ghost function ParseWritten(b: seq<byte>): (r: Option<Manifest>)
    ensures r.Some? ==> exists order :: Writes(r.value, order, b)
    ensures r.None? ==> forall m: Manifest, order: seq<string> :: !Writes(m, order, b)
  {
    if exists m: Manifest, order: seq<string> :: Writes(m, order, b) then
      var m: Manifest, order: seq<string> :| Writes(m, order, b);
      Some(m)
    else None
  }

  function ZeroDigest(x: seq<byte>): (s: string)
    ensures HexDigest(s)
  {
    seq(64, _ => '0')
  }

  ghost function Witness(version: string): Library {
    Library(Hoarder(), Hoard, ZeroDigest, ParseWritten, version)
  }

  lemma WitnessIsLawful(version: string)
    ensures Lawful(Witness(version))
  {
    hide Inflates, Writes;
    HoardingInflates();
    forall x: seq<byte> ensures Unhoard(Hoard(x)) == Some(x) && Hoard(x) != [] {
      HoardIsUndone(x);
    }
    forall m: Manifest, order: seq<string>, b: seq<byte> | Writes(m, order, b) ensures ParseWritten(b) == Some(m) {
      var other :| Writes(ParseWritten(b).value, other, b);
      BytesAreRead(m, order, ParseWritten(b).value, other, b);
    }
  }

  const PROFILE := "user_profile.json"

  /** A profile of one document. */
  function Profile(x: seq<byte>): Files {
    map[PROFILE := x]
  }

  lemma ProfileIsExportable(x: seq<byte>)
    requires |x| <= MAX_FILE
    ensures Exportable([PROFILE], Profile(x))
  {
    assert TopName(PROFILE);
    assert [PROFILE][..0] == [];
    assert Total([PROFILE], Profile(x)) == |x|;
  }

  /** An archive of two members. */
  lemma TwoMembers(e: Entry, f: Entry)
    ensures |Archive([e, f])| == 174 + 2 * |e.name| + 2 * |f.name| + |e.data| + |f.data|
  {
    assert [e, f][..1] == [e] && [e][..0] == [];
    assert |Locals([e])| == |Local(e)| && |Locals([e, f])| == |Local(e)| + |Local(f)|;
    assert |Centrals([e])| == 46 + |e.name| && |Centrals([e, f])| == 92 + |e.name| + |f.name|;
  }

  lemma ProfileFits(lib: Library, stamp: nat, x: seq<byte>, manifest: seq<byte>)
    requires lib.deflate == Hoard && |x| <= MAX_FILE && |manifest| <= MAX_MANIFEST
    ensures |Archive(Members(lib, stamp, manifest, [PROFILE], Profile(x)))| <= MAX_ARCHIVE
  {
    var e, f := EntryFor(lib, stamp, MANIFEST_NAME, manifest), EntryFor(lib, stamp, "data/" + PROFILE, x);
    assert [PROFILE][..0] == [];
    assert Members(lib, stamp, manifest, [PROFILE], Profile(x)) == [e] + [f] == [e, f];
    TwoMembers(e, f);
  }

  const VERSION := "1.0.0b8"
  const TIME := "2025-11-19T00:00:00+00:00"

  lemma WitnessDescribes()
    ensures Describable(Witness(VERSION), TIME)
  {
  }

  lemma ProfileDoesNotDrain(manifest: seq<byte>, x: seq<byte>)
    requires |x| >= ZIP_CHUNK
    ensures !AllDrain(Witness(VERSION), manifest, Profile(x))
  {
    hide Drains;
    HoardingIsLawful(x);
    assert !PackedDrains(Witness(VERSION), Profile(x)[PROFILE]);
  }

  /** `create_backup` returns the backup of any profile document from 64 KiB on, and `inspect_backup` refuses it. */
  method Refused(lib: Library, x: seq<byte>) returns (created: Result<seq<byte>>, inspected: Result<Files>)
    requires lib == Witness(VERSION) && ZIP_CHUNK <= |x| <= MAX_FILE
    ensures created.Success? && inspected.Failure?
  {
    ghost var manifest := Encode(ManifestText(ManifestFor(lib, TIME, Profile(x)), [PROFILE]));
    assert lib.deflate == Hoard;
    hide *;
    WitnessIsLawful(VERSION);
    ProfileIsExportable(x);
    WitnessDescribes();
    ManifestIsGood(lib, TIME, [PROFILE], Profile(x), manifest);
    ProfileFits(lib, 0, x, manifest);
    ProfileDoesNotDrain(manifest, x);
    created, inspected := RoundTrip(lib, 0, TIME, [PROFILE], Profile(x));
  }
}
