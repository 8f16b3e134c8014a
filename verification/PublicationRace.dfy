/** Two publishers of the same final name, step by step, in any interleaving. */
module PublicationRace {
  import opened Publication
  import opened Wrappers

  /** What `_publish` tells its caller: True, False, or the conflict error. */
  datatype Verdict = Written | AlreadyThere | Conflict

  /** Where a fault-free `_publish` is. */
  datatype Phase =
    | Opening
    | Writing(i: Inode)
    | Syncing(i: Inode)
    | Linking(i: Inode)
    | Comparing
    | Settling(wrote: bool)
    | Cleaning(result: Verdict)
    | Done(result: Verdict)

  datatype Publisher = Publisher(temporary: Name, document: string, phase: Phase)

  /** The next step of one publisher. */
  function Advance(fs: FileSystem, name: Name, p: Publisher): (FileSystem, Publisher) {
    match p.phase
    case Opening =>
      (WithEntry(WithNode(fs, fs.next, Node("", false)), p.temporary, Some(fs.next)), p.(phase := Writing(fs.next)))
    case Writing(i) =>
      (WithNode(fs, i, Node(p.document, false)), p.(phase := Syncing(i)))
    case Syncing(i) =>
      (WithNode(fs, i, Node(p.document, true)), p.(phase := Linking(i)))
    case Linking(i) =>
      if name in fs.current then (fs, p.(phase := Comparing))
      else (WithEntry(fs, name, Some(i)), p.(phase := Settling(true)))
    case Comparing =>
      if name in fs.current && fs.current[name] in fs.nodes && fs.nodes[fs.current[name]].data == p.document then
        (fs, p.(phase := Settling(false)))
      else
        (fs, p.(phase := Cleaning(Conflict)))
    case Settling(wrote) =>
      (DirectorySynced(fs), p.(phase := Cleaning(if wrote then Written else AlreadyThere)))
    case Cleaning(result) =>
      (WithEntry(fs, p.temporary, None), p.(phase := Done(result)))
    case Done(_) =>
      (fs, p)
  }

  datatype Race = Race(fs: FileSystem, a: Publisher, b: Publisher)

  /** One turn of the first (true) or the second publisher. */
  function Turn(r: Race, name: Name, first: bool): Race {
    if first then
      var (fs, a) := Advance(r.fs, name, r.a);
      Race(fs, a, r.b)
    else
      var (fs, b) := Advance(r.fs, name, r.b);
      Race(fs, r.a, b)
  }

  function Run(r: Race, name: Name, schedule: seq<bool>): Race {
    if schedule == [] then r else Turn(Run(r, name, schedule[..|schedule| - 1]), name, schedule[|schedule| - 1])
  }

  function Outcome(p: Publisher): Option<Verdict> {
    match p.phase
    case Cleaning(result) => Some(result)
    case Done(result) => Some(result)
    case _ => None
  }

  predicate Wrote(p: Publisher) {
    p.phase == Settling(true) || Outcome(p) == Some(Written)
  }

  predicate Adopted(p: Publisher) {
    p.phase == Settling(false) || Outcome(p) == Some(AlreadyThere)
  }

  predicate Refused(p: Publisher) {
    Outcome(p) == Some(Conflict)
  }

  function Owned(p: Publisher): Option<Inode> {
    match p.phase
    case Writing(i) => Some(i)
    case Syncing(i) => Some(i)
    case Linking(i) => Some(i)
    case _ => None
  }

  /** The file a publisher is preparing is its own, and ready once it is to be linked. */
  ghost predicate Prepared(fs: FileSystem, name: Name, p: Publisher) {
    Owned(p).Some? ==>
      && Owned(p).value in fs.nodes && Entry(fs, name) != Some(Owned(p).value)
      && (p.phase.Linking? ==> fs.nodes[Owned(p).value] == Node(p.document, true))
      && (!p.phase.Linking? ==> !fs.nodes[Owned(p).value].synced)
  }

  /** What one publisher's phase says, given whether the other one linked. */
  ghost predicate Consistent(fs: FileSystem, name: Name, p: Publisher, other: Publisher) {
    && (Wrote(p) ==> name in fs.current && fs.current[name] in fs.nodes
                     && fs.nodes[fs.current[name]] == Node(p.document, true))
    && (Adopted(p) ==> Wrote(other) && other.document == p.document)
    && (Refused(p) ==> Wrote(other) && other.document != p.document)
    && (p.phase.Comparing? ==> Wrote(other))
    && (Outcome(p).Some? && Outcome(p).value != Conflict ==> Durable(fs, name, p.document))
  }

  ghost predicate Racing(r: Race, name: Name) {
    && name.Final? && r.a.temporary.Temporary? && r.b.temporary.Temporary?
    && (forall i :: i in r.fs.nodes ==> i < r.fs.next)
    && (Owned(r.a).Some? ==> Owned(r.a) != Owned(r.b))
    && Prepared(r.fs, name, r.a) && Prepared(r.fs, name, r.b)
    && (name in r.fs.current <==> Wrote(r.a) || Wrote(r.b)) && !(Wrote(r.a) && Wrote(r.b))
    && (name in r.fs.current ==> name in r.fs.possible)
    && Consistent(r.fs, name, r.a, r.b) && Consistent(r.fs, name, r.b, r.a)
  }

  lemma FirstTurnKeepsRacing(r: Race, name: Name)
    requires Racing(r, name)
    ensures Racing(Turn(r, name, true), name)
  {
  }

  function Swapped(r: Race): Race {
    Race(r.fs, r.b, r.a)
  }

  /** How many turns a publisher still needs. */
  function Remaining(p: Publisher): nat {
    match p.phase
    case Opening => 7
    case Writing(_) => 6
    case Syncing(_) => 5
    case Linking(_) => 4
    case Comparing => 3
    case Settling(_) => 2
    case Cleaning(_) => 1
    case Done(_) => 0
  }

  function Turns(schedule: seq<bool>, first: bool): nat {
    if schedule == [] then 0
    else Turns(schedule[..|schedule| - 1], first) + if schedule[|schedule| - 1] == first then 1 else 0
  }

  lemma SwappedRace(r: Race, name: Name)
    requires Racing(r, name)
    ensures Racing(Swapped(r), name)
  {
  }

  /** Whoever's turn it is. */
  lemma TurnKeepsRacing(r: Race, name: Name, first: bool)
    requires Racing(r, name)
    ensures Racing(Turn(r, name, first), name)
  {
    hide Racing, Advance;
    if first {
      FirstTurnKeepsRacing(r, name);
    } else {
      SwappedRace(r, name);
      FirstTurnKeepsRacing(Swapped(r), name);
      assert Swapped(Turn(Swapped(r), name, true)) == Turn(r, name, false);
      SwappedRace(Turn(Swapped(r), name, true), name);
    }
  }

  lemma {:induction false} RunKeepsRacing(r: Race, name: Name, schedule: seq<bool>)
    requires Racing(r, name)
    ensures Racing(Run(r, name, schedule), name)
  {
    hide Racing, Advance;
    if schedule != [] {
      var before := schedule[..|schedule| - 1];
      RunKeepsRacing(r, name, before);
      TurnKeepsRacing(Run(r, name, before), name, schedule[|schedule| - 1]);
    }
  }

  predicate Progress(was: Publisher, now: Publisher, turns: nat) {
    && now.document == was.document
    && Remaining(now) <= if turns <= Remaining(was) then Remaining(was) - turns else 0
  }

  lemma TurnProgresses(r: Race, name: Name, first: bool)
    ensures Progress(r.a, Turn(r, name, first).a, if first then 1 else 0)
    ensures Progress(r.b, Turn(r, name, first).b, if first then 0 else 1)
  {
  }

  lemma {:induction false} RunProgresses(r: Race, name: Name, schedule: seq<bool>)
    ensures Progress(r.a, Run(r, name, schedule).a, Turns(schedule, true))
    ensures Progress(r.b, Run(r, name, schedule).b, Turns(schedule, false))
  {
    if schedule != [] {
      var before := schedule[..|schedule| - 1];
      RunProgresses(r, name, before);
      TurnProgresses(Run(r, name, before), name, schedule[|schedule| - 1]);
    }
  }

  /**
    However two publishers of one free name interleave, once each has had seven turns both are done and exactly one
    of them wrote the name. The other one is told so: with an equal document it succeeds without writing, with a
    different one it fails with a conflict. The winner's document is durable.
   */
  lemma ExactlyOneWins(fs: FileSystem, name: Name, a: Publisher, b: Publisher, schedule: seq<bool>)
    requires name.Final? && a.temporary.Temporary? && b.temporary.Temporary?
    requires a.phase == Opening == b.phase && name !in fs.current && forall i :: i in fs.nodes ==> i < fs.next
    requires Turns(schedule, true) >= 7 && Turns(schedule, false) >= 7
    ensures var e := Run(Race(fs, a, b), name, schedule);
            && e.a.phase.Done? && e.b.phase.Done?
            && (e.a.phase.result == Written <==> e.b.phase.result != Written)
            && (var winner, loser := if e.a.phase.result == Written then e.a else e.b,
                                     if e.a.phase.result == Written then e.b else e.a;
                && Durable(e.fs, name, winner.document)
                && loser.phase.result == if a.document == b.document then AlreadyThere else Conflict)
  {
    RunKeepsRacing(Race(fs, a, b), name, schedule);
    RunProgresses(Race(fs, a, b), name, schedule);
  }
}
