/**
  Create-only publication: a document is written to a temporary file, synchronized, hard-linked to its final name
  and made durable by synchronizing the directory. The file system keeps, for every name, the set of entries a
  crash may leave behind; every state the directory ever passes through is recorded, and every recorded state is
  safe to crash in.
 */
module Publication {
  import opened Wrappers

  /** Temporary names match the cleanup pattern; final names never do. */
  datatype Name = Final(id: string) | Temporary(nonce: nat)

  type Inode = nat

  datatype Node = Node(data: string, synced: bool)

  datatype FileSystem = FileSystem(
    nodes: map<Inode, Node>,
    current: map<Name, Inode>,
    // entries that a crash may leave, for names that ever had one
    possible: map<Name, set<Option<Inode>>>,
    next: Inode)

  type Complete = (Name, string) -> bool

  function Entry(fs: FileSystem, n: Name): Option<Inode> {
    if n in fs.current then Some(fs.current[n]) else None
  }

  function Possible(fs: FileSystem, n: Name): set<Option<Inode>> {
    if n in fs.possible then fs.possible[n] else {None}
  }

  /** An entry that may survive: nothing, or a synchronized complete document. */
  predicate Sound(complete: Complete, fs: FileSystem, n: Name, v: Option<Inode>) {
    v.Some? ==> v.value in fs.nodes && fs.nodes[v.value].synced && complete(n, fs.nodes[v.value].data)
  }

  predicate Safe(complete: Complete, fs: FileSystem) {
    && (forall i | i in fs.nodes :: i < fs.next)
    && (forall n | n in fs.current :: fs.current[n] in fs.nodes && n in fs.possible)
    && (forall n | n in fs.possible :: Entry(fs, n) in fs.possible[n])
    && (forall n | n in fs.possible && n.Final? :: forall v | v in fs.possible[n] :: Sound(complete, fs, n, v))
  }

  /** After a crash each name has one of its possible entries, and unsynchronized data is anything. */
  ghost predicate CrashOf(fs: FileSystem, after: FileSystem) {
    && (forall n :: Entry(after, n) in Possible(fs, n))
    && (forall i :: i in fs.nodes && fs.nodes[i].synced ==> i in after.nodes && after.nodes[i].data == fs.nodes[i].data)
  }

  /** The document is under its name whatever happens next. */
  predicate Durable(fs: FileSystem, n: Name, document: string) {
    && n in fs.current && fs.current[n] in fs.nodes
    && fs.nodes[fs.current[n]] == Node(document, true)
    && Possible(fs, n) == {Some(fs.current[n])}
  }

  /** In every crash state a final name is absent or holds one complete document; a durable one is still there. */
  lemma CrashIsClean(complete: Complete, fs: FileSystem, after: FileSystem, n: Name)
    requires Safe(complete, fs) && CrashOf(fs, after) && n.Final?
    ensures n in after.current ==> after.current[n] in after.nodes && complete(n, after.nodes[after.current[n]].data)
    ensures forall document :: Durable(fs, n, document) ==>
              n in after.current && after.current[n] in after.nodes && after.nodes[after.current[n]].data == document
  {
    var v := Entry(after, n);
    assert v in Possible(fs, n);
    if n in fs.possible {
      assert Sound(complete, fs, n, v);
    }
  }

  // ---- the primitive steps ----

  function WithNode(fs: FileSystem, i: Inode, node: Node): FileSystem {
    fs.(nodes := fs.nodes[i := node], next := if i < fs.next then fs.next else i + 1)
  }

  function WithEntry(fs: FileSystem, n: Name, v: Option<Inode>): FileSystem {
    fs.(current := if v.Some? then fs.current[n := v.value] else fs.current - {n},
        possible := fs.possible[n := Possible(fs, n) + {v}])
  }

  /** Synchronizing the directory leaves each name its present entry only. */
  function DirectorySynced(fs: FileSystem): FileSystem {
    fs.(possible := map n | n in fs.possible :: {Entry(fs, n)})
  }

  lemma EntryIsSafe(complete: Complete, fs: FileSystem, n: Name, v: Option<Inode>)
    requires Safe(complete, fs) && (v.Some? ==> v.value in fs.nodes) && (n.Final? ==> Sound(complete, fs, n, v))
    ensures Safe(complete, WithEntry(fs, n, v))
  {
    var after := WithEntry(fs, n, v);
    forall m | m in after.possible && m.Final?
      ensures forall w | w in after.possible[m] :: Sound(complete, after, m, w)
    {
      forall w | w in after.possible[m] ensures Sound(complete, after, m, w) {
        if w != v || m != n {
          assert w == None || w in fs.possible[m];
        }
      }
    }
  }

  lemma DirectorySyncedIsSafe(complete: Complete, fs: FileSystem)
    requires Safe(complete, fs)
    ensures Safe(complete, DirectorySynced(fs))
  {
    var after := DirectorySynced(fs);
    forall m | m in after.possible && m.Final?
      ensures forall w | w in after.possible[m] :: Sound(complete, after, m, w)
    {
      assert Sound(complete, fs, m, Entry(fs, m));
    }
  }

  /** Changing an unsynchronized node cannot matter to a final name. */
  lemma NodeIsSafe(complete: Complete, fs: FileSystem, i: Inode, node: Node)
    requires Safe(complete, fs) && (i in fs.nodes ==> !fs.nodes[i].synced || fs.nodes[i] == node)
    ensures Safe(complete, WithNode(fs, i, node))
  {
    var after := WithNode(fs, i, node);
    forall m | m in after.possible && m.Final?
      ensures forall w | w in after.possible[m] :: Sound(complete, after, m, w)
    {
      forall w | w in after.possible[m] ensures Sound(complete, after, m, w) {
        assert Sound(complete, fs, m, w);
      }
    }
  }

  // ---- what others may do meanwhile ----

  /** Final names keep their file, lose possible entries at most, and synchronized files keep their content. */
  predicate FinalsStay(fs: FileSystem, after: FileSystem) {
    && fs.next <= after.next
    && (forall i | i in fs.nodes :: i in after.nodes && (fs.nodes[i].synced ==> after.nodes[i] == fs.nodes[i]))
    && (forall n | n in fs.current && n.Final? ::
          n in after.current && after.current[n] == fs.current[n] && Possible(after, n) <= Possible(fs, n))
  }

  /** My temporary name still leads to my file, and no final name does. */
  predicate Private(fs: FileSystem, temporary: Name, i: Inode, node: Node) {
    && temporary in fs.current && fs.current[temporary] == i && i in fs.nodes && fs.nodes[i] == node
    && forall n | n in fs.current && n.Final? :: fs.current[n] != i
  }

  /** Others create, link and remove files of their own; they respect final names and my private file. */
  predicate Respects(complete: Complete, fs: FileSystem, after: FileSystem, mine: Option<(Name, Inode)>) {
    && Safe(complete, after) && FinalsStay(fs, after)
    && (mine.Some? && mine.value.1 in fs.nodes ==>
          && (Private(fs, mine.value.0, mine.value.1, fs.nodes[mine.value.1]) ==>
                Private(after, mine.value.0, mine.value.1, fs.nodes[mine.value.1]))
          && forall n | n in after.current && n.Final? && after.current[n] == mine.value.1 ::
               n in fs.current && fs.current[n] == mine.value.1)
  }

  ghost predicate SameFinals(fs: FileSystem, after: FileSystem) {
    forall n: Name :: n.Final? ==> Entry(after, n) == Entry(fs, n) && Possible(after, n) == Possible(fs, n)
  }

  lemma FinalsStayOn(a: FileSystem, b: FileSystem, c: FileSystem)
    requires FinalsStay(a, b) && FinalsStay(b, c)
    ensures FinalsStay(a, c)
  {
  }

  /** A durable document stays durable. */
  lemma DurableStays(complete: Complete, fs: FileSystem, after: FileSystem, n: Name, document: string)
    requires Safe(complete, after) && FinalsStay(fs, after) && n.Final? && Durable(fs, n, document)
    ensures Durable(after, n, document)
  {
    assert Entry(after, n) in Possible(after, n);
  }

  /** After a directory synchronization nothing but the present entries can survive. */
  ghost predicate Settled(fs: FileSystem) {
    forall n: Name :: Possible(fs, n) == {Entry(fs, n)}
  }

  datatype LinkResult = Linked | Exists | Failed

  lemma SettledIsDurable(fs: FileSystem, after: FileSystem, n: Name, i: Inode, document: string)
    requires n in fs.current && fs.current[n] == i && i in fs.nodes && fs.nodes[i] == Node(document, true) && n.Final?
    requires FinalsStay(fs, after) && Settled(after)
    ensures Durable(after, n, document) && after.current[n] == i
  {
  }

  class Directory {
    const complete: Complete
    // the writer lock is held: nobody else acts here
    const alone: bool
    var fs: FileSystem
    ghost var trace: seq<FileSystem>

    /** Every state so far is safe to crash in. */
    ghost predicate Valid()
      reads this
    {
      Safe(complete, fs) && trace != [] && trace[|trace| - 1] == fs && forall s :: s in trace ==> Safe(complete, s)
    }

    constructor (complete: Complete, alone: bool)
      ensures Valid() && fs.current == map[] && this.complete == complete && this.alone == alone
    {
      this.complete, this.alone := complete, alone;
      fs := FileSystem(map[], map[], map[], 0);
      trace := [FileSystem(map[], map[], map[], 0)];
    }

    /** The next state. */
    method Step(next: FileSystem)
      requires Valid() && Safe(complete, next)
      modifies this
      ensures Valid() && fs == next && old(trace) <= trace
    {
      fs := next;
      trace := trace + [next];
    }

    method Interfere(mine: Option<(Name, Inode)>)
      requires Valid()
      modifies this
      ensures Valid() && old(trace) <= trace && Respects(complete, old(fs), fs, mine) && (alone ==> fs == old(fs))
    {
      var next: FileSystem := *;
      if !alone && Respects(complete, fs, next, mine) {
        Step(next);
      }
    }

    /** `open` with O_CREAT | O_EXCL under a random name. */
    method Create(temporary: Name) returns (i: Option<Inode>)
      requires Valid() && temporary.Temporary?
      modifies this
      ensures Valid() && old(trace) <= trace && FinalsStay(old(fs), fs)
      ensures i.Some? ==> i.value !in old(fs).nodes && Private(fs, temporary, i.value, Node("", false))
      ensures alone && i.None? ==> fs == old(fs)
      ensures alone ==> SameFinals(old(fs), fs)
    {
      Interfere(None);
      var works: bool := *;
      if !works || temporary in fs.current {
        return None;
      }
      i := Some(fs.next);
      NodeIsSafe(complete, fs, fs.next, Node("", false));
      var created := WithNode(fs, fs.next, Node("", false));
      EntryIsSafe(complete, created, temporary, i);
      Step(WithEntry(created, temporary, i));
    }

    /** Write and flush; nothing is synchronized, and a failure leaves anything in the file. */
    method Write(temporary: Name, i: Inode, document: string) returns (ok: bool)
      requires Valid() && temporary.Temporary? && Private(fs, temporary, i, Node("", false))
      modifies this
      ensures Valid() && old(trace) <= trace && FinalsStay(old(fs), fs)
      ensures exists data :: Private(fs, temporary, i, Node(data, false)) && (ok ==> data == document)
      ensures alone ==> SameFinals(old(fs), fs)
    {
      Interfere(Some((temporary, i)));
      ok := *;
      var partial: string := *;
      var data := if ok then document else partial;
      NodeIsSafe(complete, fs, i, Node(data, false));
      Step(WithNode(fs, i, Node(data, false)));
      assert Private(fs, temporary, i, Node(data, false));
    }

    method SynchronizeFile(temporary: Name, i: Inode, ghost data: string) returns (ok: bool)
      requires Valid() && temporary.Temporary? && Private(fs, temporary, i, Node(data, false))
      modifies this
      ensures Valid() && old(trace) <= trace && FinalsStay(old(fs), fs)
      ensures Private(fs, temporary, i, Node(data, ok))
      ensures alone ==> SameFinals(old(fs), fs)
    {
      Interfere(Some((temporary, i)));
      ok := *;
      if ok {
        NodeIsSafe(complete, fs, i, Node(fs.nodes[i].data, true));
        Step(WithNode(fs, i, Node(fs.nodes[i].data, true)));
      }
    }

    /** `os.link`: atomic, and refused when the name is taken. */
    method Link(temporary: Name, i: Inode, name: Name, ghost document: string) returns (r: LinkResult)
      requires Valid() && temporary.Temporary? && name.Final? && complete(name, document)
      requires Private(fs, temporary, i, Node(document, true))
      modifies this
      ensures Valid() && old(trace) <= trace && FinalsStay(old(fs), fs)
      ensures r.Linked? ==> name !in old(fs).current && name in fs.current && fs.current[name] == i
                            && fs.nodes[i] == Node(document, true)
      ensures r.Linked? && alone ==> Possible(fs, name) == Possible(old(fs), name) + {Some(i)}
      ensures !r.Linked? ==> Private(fs, temporary, i, Node(document, true)) && (alone ==> SameFinals(old(fs), fs))
      ensures r.Exists? ==> name in fs.current
    {
      Interfere(Some((temporary, i)));
      var works: bool := *;
      if !works {
        return Failed;
      }
      if name in fs.current {
        return Exists;
      }
      EntryIsSafe(complete, fs, name, Some(i));
      Step(WithEntry(fs, name, Some(i)));
      r := Linked;
    }

    method ReadFile(name: Name) returns (document: Option<string>)
      requires Valid() && name.Final?
      modifies this
      ensures Valid() && old(trace) <= trace && FinalsStay(old(fs), fs) && (alone ==> SameFinals(old(fs), fs))
      ensures document.Some? ==> name in fs.current && fs.nodes[fs.current[name]] == Node(document.value, true)
    {
      Interfere(None);
      var works: bool := *;
      if works && name in fs.current {
        assert Sound(complete, fs, name, Entry(fs, name));
        return Some(fs.nodes[fs.current[name]].data);
      }
      document := None;
    }

    /** `os.fsync` on the directory. */
    method SynchronizeDirectory() returns (ok: bool)
      requires Valid()
      modifies this
      ensures Valid() && old(trace) <= trace && FinalsStay(old(fs), fs)
      ensures ok ==> Settled(fs)
      ensures alone ==> fs.nodes == old(fs).nodes && fs.current == old(fs).current
      ensures alone && !ok ==> fs == old(fs)
    {
      Interfere(None);
      ok := *;
      if ok {
        DirectorySyncedIsSafe(complete, fs);
        Step(DirectorySynced(fs));
      }
    }

    method UnlinkTemporary(temporary: Name) returns (ok: bool)
      requires Valid() && temporary.Temporary?
      modifies this
      ensures Valid() && old(trace) <= trace && FinalsStay(old(fs), fs) && (alone ==> SameFinals(old(fs), fs))
    {
      Interfere(None);
      ok := *;
      if ok && temporary in fs.current {
        EntryIsSafe(complete, fs, temporary, None);
        Step(WithEntry(fs, temporary, None));
      } else {
        ok := false;
      }
    }

    /** The rollback's own unlink of the name it linked. */
    method UnlinkFinal(name: Name) returns (ok: bool)
      requires Valid() && name.Final? && name in fs.current
      modifies this
      ensures Valid() && old(trace) <= trace
      ensures !ok ==> FinalsStay(old(fs), fs)
      ensures ok ==> name !in fs.current
                     && forall before: FileSystem :: name !in before.current && FinalsStay(before, old(fs)) ==>
                          FinalsStay(before, fs)
      ensures ok && alone ==> Possible(fs, name) == Possible(old(fs), name) + {None}
    {
      Interfere(None);
      ok := *;
      if ok {
        ghost var was := fs;
        EntryIsSafe(complete, fs, name, None);
        Step(WithEntry(fs, name, None));
        forall before: FileSystem | name !in before.current && FinalsStay(before, old(fs))
          ensures FinalsStay(before, fs)
        {
          FinalsStayOn(before, old(fs), was);
        }
      }
    }

    /** Write the candidate and make its content durable. */
    method Prepare(temporary: Name, i: Inode, document: string) returns (ok: bool)
      requires Valid() && temporary.Temporary? && Private(fs, temporary, i, Node("", false))
      modifies this
      ensures Valid() && old(trace) <= trace && FinalsStay(old(fs), fs) && (alone ==> SameFinals(old(fs), fs))
      ensures ok ==> Private(fs, temporary, i, Node(document, true))
    {
      ghost var start := fs;
      ok := Write(temporary, i, document);
      if ok {
        ghost var written := fs;
        ok := SynchronizeFile(temporary, i, document);
        FinalsStayOn(start, written, fs);
        assert alone ==> SameFinals(start, fs);
      }
    }

    /** The name is taken: an equal document counts as published once it is durable. */
    method Adopt(name: Name, document: string) returns (r: Result<bool>)
      requires Valid() && name.Final?
      modifies this
      ensures Valid() && old(trace) <= trace && FinalsStay(old(fs), fs)
      ensures r.Success? ==> !r.value && Durable(fs, name, document)
      ensures r.Failure? ==> r.error != "rollback"
      ensures alone ==> Entry(fs, name) == Entry(old(fs), name)
    {
      ghost var start := fs;
      var existing := ReadFile(name);
      if existing.None? {
        return Failure("read");
      }
      if existing.value != document {
        return Failure("immutable_conflict");
      }
      ghost var found := fs;
      var settled := SynchronizeDirectory();
      FinalsStayOn(start, found, fs);
      if !settled {
        return Failure("fsync");
      }
      SettledIsDurable(found, fs, name, found.current[name], document);
      r := Success(false);
    }

    /** After the link: with rollback the candidate goes first, then the directory is synchronized. */
    method Commit(temporary: Name, i: Inode, name: Name, document: string, rollback: bool)
      returns (r: Result<bool>, cleaned: bool)
      requires Valid() && temporary.Temporary? && name.Final?
      requires name in fs.current && fs.current[name] == i && i in fs.nodes && fs.nodes[i] == Node(document, true)
      modifies this
      ensures Valid() && old(trace) <= trace && FinalsStay(old(fs), fs)
      ensures name in fs.current && fs.current[name] == i
      ensures r.Success? ==> r.value && Durable(fs, name, document)
      ensures r.Failure? ==> r.error == "fsync" || r.error == "unlink"
      ensures r.Success? && rollback ==> cleaned
    {
      ghost var start := fs;
      cleaned := false;
      assert FinalsStay(start, start);
      if rollback {
        cleaned := UnlinkTemporary(temporary);
        assert name in fs.current && fs.current[name] == i;
        if !cleaned {
          return Failure("unlink"), cleaned;
        }
      }
      ghost var published := fs;
      var settled := SynchronizeDirectory();
      FinalsStayOn(start, published, fs);
      assert name in fs.current && fs.current[name] == i;
      if !settled {
        return Failure("fsync"), cleaned;
      }
      SettledIsDurable(start, fs, name, i, document);
      r := Success(true);
    }

    /** The `try` block of `_publish`. */
    method Attempt(temporary: Name, i: Inode, name: Name, document: string, rollback: bool)
      returns (r: Result<bool>, linked: bool, cleaned: bool)
      requires Valid() && temporary.Temporary? && name.Final? && complete(name, document)
      requires Private(fs, temporary, i, Node("", false))
      modifies this
      ensures Valid() && old(trace) <= trace && FinalsStay(old(fs), fs)
      ensures r.Success? ==> Durable(fs, name, document) && r.value == linked
      ensures linked ==> name !in old(fs).current && name in fs.current && fs.current[name] == i
      ensures r.Failure? ==> r.error != "rollback"
      ensures linked && r.Success? && rollback ==> cleaned
      ensures alone && !linked ==> Entry(fs, name) == Entry(old(fs), name)
    {
      linked, cleaned := false, false;
      ghost var start := fs;
      var prepared := Prepare(temporary, i, document);
      if !prepared {
        return Failure("write"), linked, cleaned;
      }
      ghost var ready := fs;
      assert name in start.current ==> name in ready.current;
      var link := Link(temporary, i, name, document);
      FinalsStayOn(start, ready, fs);
      ghost var afterLink := fs;
      match link
      case Failed =>
        r := Failure("link");
      case Exists =>
        r := Adopt(name, document);
        FinalsStayOn(start, afterLink, fs);
      case Linked =>
        linked := true;
        assert i in fs.nodes;
        r, cleaned := Commit(temporary, i, name, document, rollback);
        FinalsStayOn(start, afterLink, fs);
    }

    /**
      `_publish`, with its rollback and its clean-up of the temporary file. At every step the directory is safe to
      crash in. A normal return means the document is durable; true means that this call put it there, in a file
      made by this call. A publication with rollback that fails leaves the name as it was, unless its own unlink of
      the name failed.
     */
    method Publish(temporary: Name, name: Name, document: string, rollback: bool)
      returns (r: Result<bool>, ghost i: Option<Inode>)
      requires Valid() && temporary.Temporary? && name.Final? && complete(name, document)
      modifies this
      ensures Valid() && old(trace) <= trace && FinalsStay(old(fs), fs)
      ensures i.Some? ==> i.value !in old(fs).nodes
      ensures r.Success? ==> Durable(fs, name, document)
      ensures r.Success? && r.value ==> name !in old(fs).current && i == Some(fs.current[name])
      ensures alone && rollback && r.Failure? && r.error != "rollback" ==> Entry(fs, name) == Entry(old(fs), name)
      ensures r == Failure("rollback") ==>
                rollback && name !in old(fs).current && name in fs.current && i == Some(fs.current[name])
    {
      ghost var start := fs;
      var inode := Create(temporary);
      i := inode;
      if inode.None? {
        return Failure("open"), i;
      }
      ghost var created := fs;
      var attempt, linked, cleaned := Attempt(temporary, inode.value, name, document, rollback);
      FinalsStayOn(start, created, fs);
      r := attempt;
      if attempt.Failure? && rollback && linked {
        r := TakeBack(name, attempt.error, start);
      }
      ghost var settled := fs;
      r := CleanUp(temporary, cleaned, rollback, r);
      FinalsStayOn(start, settled, fs);
      if r.Success? {
        DurableStays(complete, settled, fs, name, document);
      }
    }

    /** The rollback of a linked name: unlink it, and synchronize the directory as well as possible. */
    method TakeBack(name: Name, error: string, ghost start: FileSystem) returns (r: Result<bool>)
      requires Valid() && name.Final? && name in fs.current && name !in start.current && FinalsStay(start, fs)
               && error != "rollback"
      modifies this
      ensures Valid() && old(trace) <= trace && FinalsStay(start, fs)
      ensures r == Failure(error) || r == Failure("rollback")
      ensures r == Failure(error) && alone ==> name !in fs.current
      ensures r == Failure("rollback") ==> name in fs.current && fs.current[name] == old(fs).current[name]
    {
      ghost var before := fs;
      var removed := UnlinkFinal(name);
      if !removed {
        FinalsStayOn(start, before, fs);
        return Failure("rollback");
      }
      ghost var gone := fs;
      var _ := SynchronizeDirectory();
      FinalsStayOn(start, gone, fs);
      r := Failure(error);
    }

    /** The `finally` block of `_publish`. A failed rollback stays the error that is reported. */
    method CleanUp(temporary: Name, cleaned: bool, rollback: bool, outcome: Result<bool>) returns (r: Result<bool>)
      requires Valid() && temporary.Temporary?
      modifies this
      ensures Valid() && old(trace) <= trace && FinalsStay(old(fs), fs)
      ensures r == outcome || (outcome != Failure("rollback")
                               && (r == Failure("unlink") || (!rollback && r == Failure("fsync"))))
      ensures rollback && cleaned ==> r == outcome
      ensures alone ==> forall n: Name :: n.Final? ==> Entry(fs, n) == Entry(old(fs), n)
    {
      r := outcome;
      assert FinalsStay(fs, fs);
      if !cleaned {
        var removed := UnlinkTemporary(temporary);
        if !removed {
          return if outcome == Failure("rollback") then outcome else Failure("unlink");
        }
      }
      ghost var now := fs;
      if !rollback {
        var settled := SynchronizeDirectory();
        FinalsStayOn(old(fs), now, fs);
        if !settled {
          return if outcome == Failure("rollback") then outcome else Failure("fsync");
        }
      }
    }

    /** `cleanup_temporary_files_durably`: only names of the temporary pattern are removed. */
    method RemoveTemporaries() returns (ok: bool)
      requires Valid()
      modifies this
      ensures Valid() && old(trace) <= trace && FinalsStay(old(fs), fs)
      ensures alone ==> forall n: Name :: n.Final? ==> Entry(fs, n) == Entry(old(fs), n)
    {
      ghost var start := fs;
      assert FinalsStay(start, start);
      hide FinalsStay, Safe, Possible, Respects;
      ok := *;
      if !ok {
        return;
      }
      var rest, removed := fs.current.Keys, false;
      while rest != {} && ok
        invariant Valid() && old(trace) <= trace && FinalsStay(start, fs)
        invariant alone ==> forall n: Name :: n.Final? ==> Entry(fs, n) == Entry(start, n)
        decreases |rest|
      {
        var candidate :| candidate in rest;
        rest := rest - {candidate};
        if candidate.Temporary? {
          ghost var before := fs;
          ok := UnlinkTemporary(candidate);
          FinalsStayOn(start, before, fs);
          removed := removed || ok;
        }
      }
      if removed {
        ghost var before := fs;
        var settled := SynchronizeDirectory();
        FinalsStayOn(start, before, fs);
        ok := ok && settled;
      }
    }

    /** The part of `save` before its `finally`. */
    method Store(temporary: Name, name: Name, document: string) returns (r: Result<bool>, ghost i: Option<Inode>)
      requires Valid() && temporary.Temporary? && name.Final? && complete(name, document)
      modifies this
      ensures Valid() && old(trace) <= trace && FinalsStay(old(fs), fs)
      ensures i.Some? ==> i.value !in old(fs).nodes
      ensures r.Success? ==> Durable(fs, name, document)
      ensures r.Success? && r.value ==> name !in old(fs).current && i == Some(fs.current[name])
    {
      ghost var start := fs;
      assert FinalsStay(start, start);
      i := None;
      if name in fs.current {
        r := Adopt(name, document);
        return;
      }
      var inode := Create(temporary);
      i := inode;
      if inode.None? {
        return Failure("open"), i;
      }
      ghost var created := fs;
      var attempt, linked, cleaned := Attempt(temporary, inode.value, name, document, false);
      FinalsStayOn(start, created, fs);
      assert name in start.current ==> name in created.current;
      r := attempt;
    }

    /**
      `save` of the create-only stores: adopt an equal document, refuse a different one, otherwise publish; then
      remove every temporary, which can turn success into an error but never takes a final document away.
     */
    method Save(temporary: Name, name: Name, document: string) returns (r: Result<bool>, ghost i: Option<Inode>)
      requires Valid() && temporary.Temporary? && name.Final? && complete(name, document)
      modifies this
      ensures Valid() && old(trace) <= trace && FinalsStay(old(fs), fs)
      ensures i.Some? ==> i.value !in old(fs).nodes
      ensures r.Success? ==> Durable(fs, name, document)
      ensures r.Success? && r.value ==> name !in old(fs).current && i == Some(fs.current[name])
      ensures name in old(fs).current && old(fs).nodes[old(fs).current[name]].data != document ==> r.Failure?
    {
      ghost var start := fs;
      r, i := Store(temporary, name, document);
      ghost var stored := fs;
      var cleaned := RemoveTemporaries();
      FinalsStayOn(start, stored, fs);
      if r.Success? {
        DurableStays(complete, stored, fs, name, document);
        assert fs.current[name] == stored.current[name];
        assert name in start.current ==> start.nodes[start.current[name]].data == document by {
          assert name in start.current ==> Sound(complete, start, name, Entry(start, name));
        }
      }
      if r.Success? && !cleaned {
        r := Failure("cleanup");
      }
    }
  }
}
