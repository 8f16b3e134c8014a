/** The durable suppression ledger for opportunity alerts: once per key, spaced within a family, never back in time. */
module AlertLedger {
  import opened DurableState
  import opened Enumeration
  import opened Wrappers

  /** The text of a key or a family. */
  datatype Identity = Identity(text: string)

  datatype Record = Record(family: Identity, emitted: int)

  datatype Document = Document(latest: Option<int>, entries: map<Identity, Record>, families: map<Identity, int>)

  const EMPTY := Document(None, map[], map[])

  /** An emission that `claim` granted. */
  datatype Grant = Grant(key: Identity, family: Identity, time: int, cooldown: int)

  datatype Outcome = Granted | Suppressed | InvalidClaim | UnsupportedPolicy | Unavailable

  predicate Emits(d: Document, key: Identity, family: Identity) {
    key in d.entries && d.entries[key].family == family
  }

  /** Some entry of the family was emitted at that time, and none later. */
  ghost predicate LatestOf(d: Document, among: set<Identity>, f: Identity, time: int) {
    && (exists key :: key in among && Emits(d, key, f) && d.entries[key].emitted == time)
    && (forall key :: key in among && Emits(d, key, f) ==> d.entries[key].emitted <= time)
  }

  /** The latest emission per family among some entries. */
  ghost predicate Latest(d: Document, among: set<Identity>, times: map<Identity, int>) {
    && (forall key :: key in among ==> key in d.entries && d.entries[key].family in times)
    && (forall f :: f in times ==> LatestOf(d, among, f, times[f]))
  }

  /** A family's time is the latest emission of its entries, and no emission is later than the watermark. */
  ghost predicate Consistent(d: Document) {
    && (forall key :: key in d.entries ==> d.latest.Some? && d.entries[key].emitted <= d.latest.value)
    && Latest(d, d.entries.Keys, d.families)
  }

  ghost predicate Named(blank: Identity -> bool, d: Document) {
    forall key :: key in d.entries ==> !blank(key) && !blank(d.entries[key].family)
  }

  lemma LatestStep(d: Document, examined: set<Identity>, expected: map<Identity, int>, key: Identity)
    requires Latest(d, examined, expected) && key in d.entries && key !in examined
    ensures Latest(d, examined + {key}, Noted(expected, d.entries[key]))
  {
    var r := d.entries[key];
    var after := Noted(expected, r);
    assert Emits(d, key, r.family);
    forall f | f in after ensures LatestOf(d, examined + {key}, f, after[f]) {
      assert f in expected ==> LatestOf(d, examined, f, expected[f]);
      if f in expected && after[f] == expected[f] {
        var k :| k in examined && Emits(d, k, f) && d.entries[k].emitted == expected[f];
        assert k in examined + {key};
      } else {
        assert key in examined + {key};
      }
    }
  }

  /** There is only one table of latest emissions. */
  lemma LatestIsUnique(d: Document, among: set<Identity>, s: map<Identity, int>, t: map<Identity, int>)
    requires Latest(d, among, s) && Latest(d, among, t)
    ensures s == t
  {
    forall f | f in s ensures f in t && s[f] == t[f] {
      SameTime(d, among, s, t, f);
    }
    forall f | f in t ensures f in s && s[f] == t[f] {
      SameTime(d, among, t, s, f);
    }
  }

  lemma SameTime(d: Document, among: set<Identity>, s: map<Identity, int>, t: map<Identity, int>, f: Identity)
    requires Latest(d, among, s) && Latest(d, among, t) && f in s
    ensures f in t && s[f] == t[f]
  {
    assert LatestOf(d, among, f, s[f]);
    hide Latest;
    var k :| k in among && Emits(d, k, f) && d.entries[k].emitted == s[f];
    assert f in t && LatestOf(d, among, f, t[f]);
    var j :| j in among && Emits(d, j, f) && d.entries[j].emitted == t[f];
  }

  /** The checks on one entry. */
  predicate EntryOk(blank: Identity -> bool, d: Document, key: Identity)
    requires key in d.entries
  {
    && !blank(key) && !blank(d.entries[key].family)
    && d.latest.Some? && d.entries[key].emitted <= d.latest.value
  }

  lemma EntriesOk(blank: Identity -> bool, d: Document, key: Identity)
    requires key in d.entries && !EntryOk(blank, d, key)
    ensures !(Named(blank, d) && Consistent(d))
  {
  }

  ghost predicate AllOk(blank: Identity -> bool, d: Document, among: set<Identity>) {
    forall key :: key in among ==> key in d.entries && EntryOk(blank, d, key)
  }

  lemma AllExamined(blank: Identity -> bool, d: Document, expected: map<Identity, int>)
    requires Latest(d, d.entries.Keys, expected) && AllOk(blank, d, d.entries.Keys)
    ensures Named(blank, d) && (d.families == expected <==> Consistent(d))
  {
    hide Latest;
    if Consistent(d) {
      LatestIsUnique(d, d.entries.Keys, expected, d.families);
    }
  }

  /** The family table after one more entry. */
  function Noted(expected: map<Identity, int>, r: Record): map<Identity, int> {
    expected[r.family := if r.family in expected && r.emitted < expected[r.family] then expected[r.family]
             else r.emitted]
  }

  lemma ExamineOne(blank: Identity -> bool, d: Document, examined: set<Identity>, expected: map<Identity, int>,
                   key: Identity)
    requires Latest(d, examined, expected) && AllOk(blank, d, examined) && key in d.entries && key !in examined
    requires EntryOk(blank, d, key)
    ensures Latest(d, examined + {key}, Noted(expected, d.entries[key])) && AllOk(blank, d, examined + {key})
  {
    LatestStep(d, examined, expected, key);
  }

  /** The loop of `_load`: a document is accepted exactly when it is consistent and names its entries. */
  method Accepts(blank: Identity -> bool, d: Document) returns (ok: bool)
    ensures ok <==> Named(blank, d) && Consistent(d)
  {
    var expected: map<Identity, int> := map[];
    var order := InSomeOrder(d.entries.Keys);
    ghost var examined: set<Identity> := {};
    assert Latest(d, examined, expected) && AllOk(blank, d, examined);
    for i := 0 to |order|
      invariant forall k :: k in examined <==> k in order[..i]
      invariant Latest(d, examined, expected) && AllOk(blank, d, examined)
    {
      var key := order[i];
      assert key in order;
      if !EntryOk(blank, d, key) {
        EntriesOk(blank, d, key);
        return false;
      }
      assert key !in order[..i];
      ExamineOne(blank, d, examined, expected, key);
      expected := Noted(expected, d.entries[key]);
      examined := examined + {key};
    }
    assert order[..|order|] == order;
    assert examined == d.entries.Keys;
    AllExamined(blank, d, expected);
    ok := d.families == expected;
  }

  // ---- a claim on a document ----

  /** The new document of a claim that is not behind the watermark. */
  function Claimed(d: Document, key: Identity, family: Identity, time: int, permitted: bool): Document {
    if permitted then Document(Some(time), d.entries[key := Record(family, time)], d.families[family := time])
    else d.(latest := Some(time))
  }

  predicate Permitted(d: Document, key: Identity, family: Identity, time: int, cooldown: int) {
    key !in d.entries && (family in d.families ==> time >= d.families[family] + cooldown)
  }

  lemma ClaimKeepsConsistent(d: Document, key: Identity, family: Identity, time: int, cooldown: int, permitted: bool)
    requires Consistent(d) && cooldown > 0 && (d.latest.Some? ==> d.latest.value <= time)
    requires permitted ==> Permitted(d, key, family, time, cooldown)
    ensures Consistent(Claimed(d, key, family, time, permitted))
  {
    var e := Claimed(d, key, family, time, permitted);
    forall f | f in e.families ensures LatestOf(e, e.entries.Keys, f, e.families[f]) {
      if permitted && f == family {
        assert Emits(e, key, f);
        assert f in d.families ==> LatestOf(d, d.entries.Keys, f, d.families[f]);
        forall k | k in e.entries.Keys && Emits(e, k, f) && k != key ensures e.entries[k].emitted <= time {
          assert Emits(d, k, f);
        }
      } else {
        assert LatestOf(d, d.entries.Keys, f, d.families[f]);
        var k :| k in d.entries.Keys && Emits(d, k, f) && d.entries[k].emitted == d.families[f];
        assert k in e.entries.Keys && Emits(e, k, f);
        forall j | j in e.entries.Keys && Emits(e, j, f) ensures e.entries[j].emitted <= e.families[f] {
          assert Emits(d, j, f);
        }
      }
    }
  }

  /** The grants so far: distinct keys, never back in time, and spaced by the later claim's cooldown in each family. */
  ghost predicate Spaced(grants: seq<Grant>) {
    forall i, j :: 0 <= i < j < |grants| ==>
      && grants[i].key != grants[j].key && grants[i].time <= grants[j].time
      && (grants[i].family == grants[j].family ==> grants[i].time + grants[j].cooldown <= grants[j].time)
  }

  /** The document remembers every grant. */
  ghost predicate Remembers(blank: Identity -> bool, grants: seq<Grant>, d: Option<Document>) {
    && (grants != [] ==> d.Some?)
    && (d.Some? ==> Consistent(d.value) && Named(blank, d.value))
    && (d.Some? ==> forall g :: g in grants ==>
        g.key in d.value.entries && d.value.entries[g.key] == Record(g.family, g.time))
  }

  lemma GrantIsSpaced(grants: seq<Grant>, d: Document, g: Grant)
    requires Spaced(grants) && Consistent(d)
    requires forall h :: h in grants ==> h.key in d.entries && d.entries[h.key] == Record(h.family, h.time)
    requires d.latest.Some? ==> d.latest.value <= g.time
    requires Permitted(d, g.key, g.family, g.time, g.cooldown)
    ensures Spaced(grants + [g])
  {
    forall i | 0 <= i < |grants|
      ensures grants[i].key != g.key && grants[i].time <= g.time
      ensures grants[i].family == g.family ==> grants[i].time + g.cooldown <= g.time
    {
      assert grants[i] in grants;
      assert grants[i].key in d.entries.Keys && Emits(d, grants[i].key, grants[i].family);
      assert grants[i].family in d.families
             && LatestOf(d, d.entries.Keys, grants[i].family, d.families[grants[i].family]);
    }
  }

  /** The new document remembers the grants so far, and the new one if it is granted. */
  lemma ClaimRemembers(blank: Identity -> bool, grants: seq<Grant>, current: Option<Document>, d: Document, g: Grant,
                       permitted: bool)
    requires Remembers(blank, grants, current) && d == if current.Some? then current.value else EMPTY
    requires !blank(g.key) && !blank(g.family) && g.cooldown > 0 && (d.latest.Some? ==> d.latest.value <= g.time)
    requires permitted ==> Permitted(d, g.key, g.family, g.time, g.cooldown)
    ensures Remembers(blank, grants, Some(Claimed(d, g.key, g.family, g.time, permitted)))
    ensures permitted ==> Remembers(blank, grants + [g], Some(Claimed(d, g.key, g.family, g.time, permitted)))
    ensures permitted && Spaced(grants) ==> Spaced(grants + [g])
  {
    ClaimKeepsConsistent(d, g.key, g.family, g.time, g.cooldown, permitted);
    if permitted && Spaced(grants) {
      GrantIsSpaced(grants, d, g);
    }
  }

  datatype Event = Claim(key: Identity, family: Identity, time: int, cooldown: int, policyVersion: int) | MachineCrash

  class AlertLedger {
    const blank: Identity -> bool
    const file: StateFile<Document>
    ghost var grants: seq<Grant>

    ghost predicate Valid()
      reads this, file
    {
      file.Valid() && Spaced(grants) && forall d :: d in file.possible ==> Remembers(blank, grants, d)
    }

    constructor (blank: Identity -> bool)
      ensures Valid() && fresh(file) && grants == [] && this.blank == blank
    {
      this.blank := blank;
      file := new StateFile();
      grants := [];
    }

    /** `_load`: the strict loader never rejects what `claim` wrote; only the read itself may fail. */
    method Load(readable: bool) returns (d: Option<Document>)
      requires Valid()
      ensures d.Some? <==> readable
      ensures d.Some? ==> d.value == if file.current.Some? then file.current.value else EMPTY
    {
      if !readable {
        return None;
      }
      if file.current.None? {
        return Some(EMPTY);
      }
      assert Remembers(blank, grants, file.current);
      var accepted := Accepts(blank, file.current.value);
      d := if accepted then file.current else None;
    }

    /**
      `claim`. A grant is durable before it is returned, so no crash can make the ledger grant a key twice or
      within the cooldown of its family; the watermark never goes back.
     */
    method Claim(key: Identity, family: Identity, time: int, cooldown: int, policyVersion: int) returns (r: Outcome)
      requires Valid()
      modifies this, file
      ensures Valid()
      ensures grants == if r == Granted then old(grants) + [Grant(key, family, time, cooldown)] else old(grants)
      ensures old(file.current).Some? ==> file.current.Some?
      ensures old(file.current).Some? && old(file.current).value.latest.Some? ==>
                file.current.value.latest.Some?
                    && old(file.current).value.latest.value <= file.current.value.latest.value
      ensures r == Granted || r == Suppressed ==>
                var d := if old(file.current).Some? then old(file.current).value else EMPTY;
                var behind := d.latest.Some? && time < d.latest.value;
                && (r == Granted <==> !behind && Permitted(d, key, family, time, cooldown))
                && (if behind then file.current == old(file.current)
                    else file.current == Some(Claimed(d, key, family, time, r == Granted)))
      ensures r == InvalidClaim <==> blank(key) || blank(family) || cooldown <= 0
      ensures r == UnsupportedPolicy <==> r != InvalidClaim && policyVersion != 1
    {
      if blank(key) || blank(family) || cooldown <= 0 {
        return InvalidClaim;
      }
      if policyVersion != 1 {
        return UnsupportedPolicy;
      }
      var readable: bool := *;
      var loaded := Load(readable);
      if loaded.None? {
        return Unavailable;
      }
      var d := loaded.value;
      if d.latest.Some? && time < d.latest.value {
        return Suppressed;
      }
      hide Remembers, Spaced;
      var permitted := Permitted(d, key, family, time, cooldown);
      if !permitted && d.latest == Some(time) {
        return Suppressed;
      }
      var next := Claimed(d, key, family, time, permitted);
      ClaimRemembers(blank, grants, file.current, d, Grant(key, family, time, cooldown), permitted);
      var written := file.Replace(next);
      if !written {
        return Unavailable;
      }
      if permitted {
        grants := grants + [Grant(key, family, time, cooldown)];
      }
      r := if permitted then Granted else Suppressed;
    }

    /** Any sequence of claims, by any number of writers, with machine crashes in between. */
    method RunHistory(events: seq<Event>)
      requires Valid()
      modifies this, file
      ensures Valid() && old(grants) <= grants
    {
      for i := 0 to |events|
        invariant Valid() && old(grants) <= grants
      {
        match events[i]
        case Claim(key, family, time, cooldown, policyVersion) =>
          var _ := Claim(key, family, time, cooldown, policyVersion);
        case MachineCrash =>
          file.Crash();
      }
    }
  }
}
