/**
  Field observations and their corrections. An observation may supersede one earlier observation of the same
  decision; the store keeps one immutable file per observation and only the end of a correction chain is active.
 */
module ObservationLineage {
  import Enumeration
  import opened Wrappers
  import Merging

  type Id = string

  datatype Observation = Observation(id: Id, decisionId: string, supersedes: Option<Id>, observedAt: int,
                                     report: string)

  type Files = map<Id, Observation>

  /** Decoding refuses a document whose identity is not its file name. */
  ghost predicate KeyedById(files: Files) {
    forall id :: id in files ==> files[id].id == id
  }

  // ---- ancestry ----

  /** `path` leads from its first observation, parent by parent, to one that supersedes nothing. */
  ghost predicate RootPath(files: Files, path: seq<Id>) {
    && path != [] && path[0] in files
    && if |path| == 1 then files[path[0]].supersedes == None
       else files[path[0]].supersedes == Some(path[1]) && RootPath(files, path[1..])
  }

  ghost predicate Rooted(files: Files, id: Id) {
    exists path :: RootPath(files, path) && path[0] == id
  }

  ghost predicate Childless(files: Files, id: Id) {
    forall c :: c in files ==> files[c].supersedes != Some(id)
  }

  ghost predicate AtMostOneChild(files: Files, id: Id) {
    forall a, b :: a in files && b in files && files[a].supersedes == Some(id) == files[b].supersedes ==> a == b
  }

  ghost predicate SameDecision(files: Files, id: Id) {
    id in files && files[id].supersedes.Some? ==>
      files[id].supersedes.value in files && files[files[id].supersedes.value].decisionId == files[id].decisionId
  }

  /** What every reachable store is: finite chains, each within one decision, with no branch. */
  ghost predicate Lineage(files: Files) {
    && KeyedById(files)
    && (forall id :: id in files ==> Rooted(files, id))
    && (forall id :: SameDecision(files, id))
    && (forall id :: AtMostOneChild(files, id))
  }

  /** The steps of the path from `id` to its root, or 0 when there is none. */
  ghost function Depth(files: Files, id: Id): nat {
    if Rooted(files, id) then
      var path :| RootPath(files, path) && path[0] == id;
      |path|
    else 0
  }

  lemma {:induction false} RootPathIsUnique(files: Files, p: seq<Id>, q: seq<Id>)
    requires RootPath(files, p) && RootPath(files, q) && p[0] == q[0]
    ensures p == q
  {
    if |p| > 1 {
      RootPathIsUnique(files, p[1..], q[1..]);
      assert p == [p[0]] + p[1..] && q == [q[0]] + q[1..];
    }
  }

  lemma {:induction false} RootPathSuffix(files: Files, path: seq<Id>, i: nat)
    requires RootPath(files, path) && i < |path|
    ensures RootPath(files, path[i..])
  {
    if i > 0 {
      RootPathSuffix(files, path[1..], i - 1);
      assert path[1..][i - 1..] == path[i..];
    }
  }

  lemma DepthOfPath(files: Files, path: seq<Id>)
    requires RootPath(files, path)
    ensures Rooted(files, path[0]) && Depth(files, path[0]) == |path|
  {
    assert Rooted(files, path[0]);
    var q :| RootPath(files, q) && q[0] == path[0] && Depth(files, path[0]) == |q|;
    RootPathIsUnique(files, path, q);
  }

  /** Climbing one step neither creates nor loses a root. */
  lemma RootedStep(files: Files, id: Id)
    requires id in files
    ensures files[id].supersedes.None? ==> Rooted(files, id)
    ensures files[id].supersedes.Some? ==> (Rooted(files, id) <==> Rooted(files, files[id].supersedes.value))
    ensures files[id].supersedes.Some? && Rooted(files, id) ==>
              Depth(files, id) == Depth(files, files[id].supersedes.value) + 1
  {
    if files[id].supersedes.None? {
      assert RootPath(files, [id]);
    } else {
      var parent := files[id].supersedes.value;
      if Rooted(files, id) {
        var path :| RootPath(files, path) && path[0] == id;
        DepthOfPath(files, path);
        DepthOfPath(files, path[1..]);
      }
      if Rooted(files, parent) {
        var path :| RootPath(files, path) && path[0] == parent;
        assert ([id] + path)[1..] == path;
        assert RootPath(files, [id] + path);
      }
    }
  }

  /** Every member's parent is a member: a cycle, or a set that runs into one. */
  ghost predicate Closed(files: Files, ids: set<Id>) {
    forall id :: id in ids ==> id in files && files[id].supersedes.Some? && files[id].supersedes.value in ids
  }

  lemma {:induction false} ClosedHasNoRoot(files: Files, ids: set<Id>, path: seq<Id>)
    requires Closed(files, ids) && path != [] && path[0] in ids
    ensures !RootPath(files, path)
  {
    if |path| > 1 && path[1] in ids {
      ClosedHasNoRoot(files, ids, path[1..]);
    }
  }

  lemma NotRootedInCycle(files: Files, ids: set<Id>, id: Id)
    requires Closed(files, ids) && id in ids
    ensures !Rooted(files, id)
  {
    forall path: seq<Id> | path != [] && path[0] == id ensures !RootPath(files, path) {
      ClosedHasNoRoot(files, ids, path);
    }
  }

  /** The walk upwards: every walked observation's parent has been walked too, or is where the walk is now. */
  ghost predicate Climbed(files: Files, walked: set<Id>, current: Id) {
    forall v :: v in walked ==>
      v in files && files[v].supersedes.Some?
          && (files[v].supersedes.value == current || files[v].supersedes.value in walked)
  }

  lemma ClimbStep(files: Files, walked: set<Id>, id: Id)
    requires Climbed(files, walked, id) && id in files && files[id].supersedes.Some?
    ensures Climbed(files, walked + {id}, files[id].supersedes.value)
  {
  }

  lemma CycleFound(files: Files, walked: set<Id>, id: Id)
    requires Climbed(files, walked, id) && id in files && files[id].supersedes.Some?
    requires id in walked || files[id].supersedes.value in walked + {id}
    ensures !Rooted(files, id)
  {
    NotRootedInCycle(files, walked + {id}, id);
  }

  ghost predicate Deeper(files: Files, ids: set<Id>, d: int) {
    forall v :: v in ids ==> Depth(files, v) > d
  }

  /** The walk downwards from `start`: every step is deeper than all before it. */
  ghost predicate Descended(files: Files, walked: set<Id>, start: Id, current: Id) {
    && (current == start || Depth(files, current) > Depth(files, start))
    && (forall v :: v in walked ==>
          Depth(files, v) < Depth(files, current) && (v == start || Depth(files, v) > Depth(files, start)))
  }

  /** In a lineage a step up stays in the decision, meets no branch and never comes back. */
  lemma LineageStep(files: Files, walked: set<Id>, id: Id)
    requires Lineage(files) && id in files && files[id].supersedes.Some?
    requires Deeper(files, walked, Depth(files, id))
    ensures var parent := files[id].supersedes.value;
            && parent in files && files[parent].decisionId == files[id].decisionId && AtMostOneChild(files, parent)
            && Depth(files, id) == Depth(files, parent) + 1
            && Deeper(files, walked + {id}, Depth(files, parent)) && parent !in walked + {id}
  {
    assert SameDecision(files, id) && Rooted(files, id);
    RootedStep(files, id);
    assert AtMostOneChild(files, files[id].supersedes.value);
  }

  // ---- chains ----

  /** Two observations with the same root lie on one chain: the shorter path is the end of the longer one. */
  lemma {:induction false} ChainsAreLinear(files: Files, p: seq<Id>, q: seq<Id>)
    requires Lineage(files) && RootPath(files, p) && RootPath(files, q)
    requires p[|p| - 1] == q[|q| - 1] && |p| <= |q|
    ensures q[|q| - |p|..] == p
  {
    var k := |q| - |p|;
    RootPathSuffix(files, q, k);
    if |p| > 1 {
      ChainsAreLinear(files, p[1..], q);
      assert q[k..][1..] == q[k + 1..] == p[1..];
      assert AtMostOneChild(files, p[1]);
      assert q[k..] == [q[k]] + q[k + 1..] && p == [p[0]] + p[1..];
    }
  }

  /** Each chain has at most one tip. */
  lemma TipIsUnique(files: Files, p: seq<Id>, q: seq<Id>)
    requires Lineage(files) && RootPath(files, p) && RootPath(files, q)
    requires p[|p| - 1] == q[|q| - 1]
    requires Childless(files, p[0]) && Childless(files, q[0])
    ensures p == q
  {
    assert p != [] && q != [];
    hide Lineage, RootPath;
    if |p| <= |q| {
      ChainsAreLinear(files, p, q);
      InnerHasChild(files, q);
    } else {
      ChainsAreLinear(files, q, p);
      InnerHasChild(files, p);
    }
  }

  lemma InnerHasChild(files: Files, path: seq<Id>)
    requires RootPath(files, path)
    ensures forall i :: 0 < i < |path| ==> !Childless(files, path[i])
  {
    forall i | 0 < i < |path| ensures !Childless(files, path[i]) {
      RootPathSuffix(files, path, i - 1);
      assert files[path[i - 1]].supersedes == Some(path[i - 1..][1]);
    }
  }

  lemma {:induction false} PathIsShort(files: Files, path: seq<Id>)
    requires RootPath(files, path)
    ensures |path| <= |files|
  {
    var ids := set i | 0 <= i < |path| :: path[i];
    DistinctOnPath(files, path);
    Enumeration.EnumerationLength(path, ids);
    forall i | 0 <= i < |path| ensures path[i] in files.Keys {
      RootPathSuffix(files, path, i);
    }
    assert ids <= files.Keys;
    Enumeration.SubsetSize(ids, files.Keys);
    assert |files.Keys| == |files|;
  }

  lemma DistinctOnPath(files: Files, path: seq<Id>)
    requires RootPath(files, path)
    ensures forall i, j :: 0 <= i < j < |path| ==> path[i] != path[j]
  {
    forall i, j | 0 <= i < j < |path| ensures path[i] != path[j] {
      RootPathSuffix(files, path, i);
      RootPathSuffix(files, path, j);
      DepthOfPath(files, path[i..]);
      DepthOfPath(files, path[j..]);
    }
  }

  /** Each chain has a tip: from any observation, corrections lead down to one that nothing supersedes. */
  lemma {:induction false} TipExists(files: Files, path: seq<Id>) returns (tip: seq<Id>)
    requires Lineage(files) && RootPath(files, path)
    ensures RootPath(files, tip) && Childless(files, tip[0])
    ensures |path| <= |tip| && tip[|tip| - |path|..] == path
    decreases |files| - |path|
  {
    PathIsShort(files, path);
    if Childless(files, path[0]) {
      tip := path;
    } else {
      var c :| c in files && files[c].supersedes == Some(path[0]);
      var longer := [c] + path;
      assert longer[1..] == path;
      PathIsShort(files, longer);
      tip := TipExists(files, longer);
      assert tip[|tip| - |path|..] == tip[|tip| - |longer|..][1..];
    }
  }

  // ---- what the active-lineage check accepts ----

  /** A root path on which every step stays in its decision and no ancestor has a second child. */
  ghost predicate IntactPath(files: Files, path: seq<Id>) {
    && path != [] && path[0] in files
    && if |path| == 1 then files[path[0]].supersedes == None
       else
         && files[path[0]].supersedes == Some(path[1])
         && SameDecision(files, path[0]) && AtMostOneChild(files, path[1])
         && IntactPath(files, path[1..])
  }

  ghost predicate Intact(files: Files, id: Id) {
    exists path :: IntactPath(files, path) && path[0] == id
  }

  lemma {:induction false} IntactIsRooted(files: Files, path: seq<Id>)
    requires IntactPath(files, path)
    ensures RootPath(files, path)
  {
    if |path| > 1 {
      IntactIsRooted(files, path[1..]);
    }
  }

  lemma IntactStep(files: Files, id: Id)
    requires id in files
    ensures files[id].supersedes.None? ==> Intact(files, id)
    ensures files[id].supersedes.Some? ==>
              var parent := files[id].supersedes.value;
              Intact(files, id) <==> SameDecision(files, id) && AtMostOneChild(files, parent) && Intact(files, parent)
  {
    if files[id].supersedes.None? {
      assert IntactPath(files, [id]);
    } else {
      var parent := files[id].supersedes.value;
      if Intact(files, id) {
        var path :| IntactPath(files, path) && path[0] == id;
        assert IntactPath(files, path[1..]);
      }
      if SameDecision(files, id) && AtMostOneChild(files, parent) && Intact(files, parent) {
        var path :| IntactPath(files, path) && path[0] == parent;
        assert ([id] + path)[1..] == path;
        assert IntactPath(files, [id] + path);
      }
    }
  }

  lemma NotIntactInCycle(files: Files, walked: set<Id>, id: Id)
    requires Climbed(files, walked, id) && id in files && files[id].supersedes.Some?
    requires id in walked || files[id].supersedes.value in walked + {id}
    ensures !Intact(files, id)
  {
    CycleFound(files, walked, id);
    forall path | IntactPath(files, path) ensures path[0] != id {
      IntactIsRooted(files, path);
    }
  }

  /** The loop invariant of the climb: `seen` by the descent, then `walked`, now at `current`. */
  ghost predicate Climbing(files: Files, start: Id, seen: set<Id>, walked: set<Id>, visited: set<Id>, current: Id) {
    && current in files && visited <= files.Keys && visited == seen + walked + {current}
    && Climbed(files, walked, current) && start in walked + {current}
    && (Intact(files, start) <==> Intact(files, current))
    && (Lineage(files) ==> Deeper(files, visited - {current}, Depth(files, current)))
  }

  lemma ClimbingStep(files: Files, start: Id, seen: set<Id>, walked: set<Id>, visited: set<Id>, current: Id)
    requires Climbing(files, start, seen, walked, visited, current) && files[current].supersedes.Some?
    requires SameDecision(files, current) && AtMostOneChild(files, files[current].supersedes.value)
    requires files[current].supersedes.value !in visited
    ensures var parent := files[current].supersedes.value;
            Climbing(files, start, seen, walked + {current}, visited + {parent}, parent)
  {
    hide Climbed, Deeper, Lineage, Intact, AtMostOneChild;
    var parent := files[current].supersedes.value;
    IntactStep(files, current);
    ClimbStep(files, walked, current);
    assert visited + {parent} - {parent} == visited - {current} + {current};
    if Lineage(files) {
      LineageStep(files, visited - {current}, current);
    }
  }

  /** Where the climb gives up, there is no lineage, and no intact path from an observation without corrections. */
  lemma ClimbingStuck(files: Files, start: Id, seen: set<Id>, walked: set<Id>, visited: set<Id>, current: Id)
    requires Climbing(files, start, seen, walked, visited, current) && files[current].supersedes.Some?
    requires var parent := files[current].supersedes.value;
             parent in visited || !SameDecision(files, current) || !AtMostOneChild(files, parent)
    ensures !Lineage(files)
    ensures seen == {start} ==> !Intact(files, start)
  {
    hide Climbed, Deeper, Lineage, Intact, AtMostOneChild;
    var parent := files[current].supersedes.value;
    IntactStep(files, current);
    if Lineage(files) {
      LineageStep(files, visited - {current}, current);
    }
    if parent in visited && seen == {start} {
      NotIntactInCycle(files, walked, current);
    }
  }

  // ---- saving keeps the lineage ----

  /** The guard of `save` for a new observation. */
  ghost predicate Supersedable(files: Files, o: Observation) {
    o.supersedes.Some? ==>
      var parent := o.supersedes.value;
      parent in files && files[parent].decisionId == o.decisionId && Rooted(files, parent) && Childless(files, parent)
  }

  lemma {:induction false} RootPathSurvives(files: Files, o: Observation, path: seq<Id>)
    requires o.id !in files && RootPath(files, path)
    ensures RootPath(files[o.id := o], path)
  {
    if |path| > 1 {
      RootPathSurvives(files, o, path[1..]);
    }
  }

  lemma SaveKeepsLineage(files: Files, o: Observation)
    requires Lineage(files) && o.id !in files && Supersedable(files, o)
    ensures Lineage(files[o.id := o])
  {
    var after := files[o.id := o];
    forall id | id in files ensures Rooted(after, id) {
      assert Rooted(files, id);
      var path :| RootPath(files, path) && path[0] == id;
      RootPathSurvives(files, o, path);
    }
    RootedStep(after, o.id);
    forall id ensures SameDecision(after, id) {
      assert SameDecision(files, id);
    }
    forall id ensures AtMostOneChild(after, id) {
      assert AtMostOneChild(files, id);
      NobodySupersedes(files, o);
    }
  }

  /** In a lineage every superseded observation is present, so nothing supersedes an absent one. */
  lemma NobodySupersedes(files: Files, o: Observation)
    requires Lineage(files) && o.id !in files
    ensures Childless(files, o.id)
  {
    forall c | c in files ensures files[c].supersedes != Some(o.id) {
      assert SameDecision(files, c);
    }
  }

  // ---- the lists the store works on ----

  /** Every stored observation, once each, in some directory order. */
  ghost predicate Listing(files: Files, all: seq<Observation>) {
    && (forall i, j :: 0 <= i < j < |all| ==> all[i].id != all[j].id)
    && (forall o :: o in all <==> o.id in files && files[o.id] == o)
  }

  /** The observations of a list that supersede `parent`, in list order. */
  function Under(all: seq<Observation>, parent: Id): (r: seq<Observation>)
    ensures forall o :: o in r <==> o in all && o.supersedes == Some(parent)
  {
    if all == [] then []
    else
      var last := all[|all| - 1];
      assert all == all[..|all| - 1] + [last];
      Under(all[..|all| - 1], parent) + if last.supersedes == Some(parent) then [last] else []
  }

  lemma {:induction false} UnderIsDistinct(all: seq<Observation>, parent: Id)
    requires forall i, j :: 0 <= i < j < |all| ==> all[i].id != all[j].id
    ensures forall i, j :: 0 <= i < j < |Under(all, parent)| ==> Under(all, parent)[i].id != Under(all, parent)[j].id
  {
    if all != [] {
      UnderIsDistinct(all[..|all| - 1], parent);
      forall o | o in Under(all[..|all| - 1], parent) ensures o.id != all[|all| - 1].id {
        assert o in all[..|all| - 1];
      }
    }
  }

  /** `children.get(parent, [])`. */
  function Direct(children: map<Id, seq<Observation>>, parent: Id): seq<Observation> {
    if parent in children then children[parent] else []
  }

  /** The table of children agrees with the list it was built from. */
  ghost predicate Tabulates(children: map<Id, seq<Observation>>, all: seq<Observation>) {
    forall p :: Direct(children, p) == Under(all, p)
  }

  /** What the length of a list of children says about the store. */
  lemma ChildList(files: Files, all: seq<Observation>, children: map<Id, seq<Observation>>, parent: Id)
    requires KeyedById(files) && Listing(files, all) && Tabulates(children, all)
    ensures Direct(children, parent) == [] <==> Childless(files, parent)
    ensures |Direct(children, parent)| <= 1 <==> AtMostOneChild(files, parent)
    ensures Direct(children, parent) != [] ==>
              var o := Direct(children, parent)[0];
              o.id in files && files[o.id] == o && o.supersedes == Some(parent)
  {
    var kids := Under(all, parent);
    UnderIsDistinct(all, parent);
    forall c | c in files && files[c].supersedes == Some(parent) ensures files[c] in kids {
      assert files[c] in all;
    }
    if |kids| > 1 {
      assert kids[0] in kids && kids[1] in kids;
    }
    if kids != [] {
      assert kids[0] in kids;
    }
  }

  /** `_lineage_by_id`. */
  method LineageById(ghost files: Files, all: seq<Observation>) returns (byId: Files)
    requires KeyedById(files) && Listing(files, all)
    ensures byId == files
  {
    byId := map[];
    for i := 0 to |all|
      invariant forall id :: id in byId ==> id in files && byId[id] == files[id]
      invariant forall k :: 0 <= k < i ==> all[k].id in byId
    {
      assert all[i] in all;
      byId := byId[all[i].id := all[i]];
    }
    forall id | id in files ensures id in byId {
      assert files[id] in all;
    }
  }

  /** `_children_by_parent`. */
  method ChildrenByParent(all: seq<Observation>) returns (children: map<Id, seq<Observation>>)
    ensures Tabulates(children, all)
  {
    children := map[];
    for i := 0 to |all|
      invariant Tabulates(children, all[..i])
    {
      assert all[..i + 1][..i] == all[..i];
      if all[i].supersedes.Some? {
        var parent := all[i].supersedes.value;
        children := children[parent := Direct(children, parent) + [all[i]]];
      }
    }
    assert all[..|all|] == all;
  }

  lemma Listed(files: Files, all: seq<Observation>, o: Observation)
    requires Listing(files, all) && o in all
    ensures o.id in files && files[o.id] == o
  {
  }

  /** Marking one more observation leaves fewer to visit. */
  lemma OneLess(keys: set<Id>, visited: set<Id>, id: Id)
    requires visited <= keys && id in keys - visited
    ensures visited + {id} <= keys && |keys - (visited + {id})| < |keys - visited|
  {
    assert keys - visited == keys - (visited + {id}) + {id};
  }

  lemma DescentStarts(files: Files, start: Id)
    ensures Descended(files, {}, start, start)
  {
  }

  lemma NeverRevisited(files: Files, walked: set<Id>, start: Id, current: Id)
    requires Descended(files, walked, start, current)
    ensures current !in walked
  {
  }

  lemma DescentIsDeeper(files: Files, walked: set<Id>, start: Id, current: Id)
    requires Descended(files, walked, start, current)
    ensures Deeper(files, walked + {current} - {start}, Depth(files, start))
  {
  }

  /** The descent of `_validate_active_lineage`: follow the single child until there is none. */
  method Descend(ghost files: Files, observation: Observation, ghost all: seq<Observation>,
                 children: map<Id, seq<Observation>>)
    returns (r: Result<set<Id>>)
    requires KeyedById(files) && Listing(files, all) && observation in all && Tabulates(children, all)
    ensures r.Success? ==> observation.id in r.value && r.value <= files.Keys
    ensures r.Success? && Childless(files, observation.id) ==> r.value == {observation.id}
    ensures r.Success? && Lineage(files) ==> Deeper(files, r.value - {observation.id}, Depth(files, observation.id))
    ensures r.Failure? ==> !Lineage(files) && !Childless(files, observation.id)
  {
    hide *;
    var visited: set<Id>, current := {}, observation;
    Listed(files, all, observation);
    DescentStarts(files, observation.id);
    while true
      invariant current.id in files && files[current.id] == current
      invariant visited <= files.Keys
      invariant (visited == {} && current == observation)
                || (observation.id in visited && !Childless(files, observation.id))
      invariant Lineage(files) ==> Descended(files, visited, observation.id, current.id)
      decreases |files.Keys - visited|
    {
      ghost var before := visited;
      if current.id in visited {
        if Lineage(files) {
          NeverRevisited(files, visited, observation.id, current.id);
        }
        return Failure("field_observation_supersession_corrupt");
      }
      OneLess(files.Keys, visited, current.id);
      visited := visited + {current.id};
      ChildList(files, all, children, current.id);
      var direct := Direct(children, current.id);
      if direct == [] {
        if Lineage(files) {
          DescentIsDeeper(files, before, observation.id, current.id);
        }
        return Success(visited);
      }
      var child := direct[0];
      DescendStep(files, before, observation.id, current.id, child);
      if |direct| > 1 {
        return Failure("field_observation_supersession_ambiguous");
      }
      if child.decisionId != current.decisionId {
        return Failure("field_observation_supersession_corrupt");
      }
      current := child;
    }
  }

  lemma DescendStep(files: Files, walked: set<Id>, start: Id, current: Id, child: Observation)
    requires current in files && child.id in files && files[child.id] == child && child.supersedes == Some(current)
    requires Lineage(files) ==> Descended(files, walked, start, current)
    ensures !Childless(files, current)
    ensures Lineage(files) ==>
              && child.decisionId == files[current].decisionId && AtMostOneChild(files, current)
              && Descended(files, walked + {current}, start, child.id)
  {
    if Lineage(files) {
      LineageStep(files, {}, child.id);
    }
  }

  /**
    `_validate_active_lineage`: down to the newest correction, back up to the root, and only then whether the
    observation itself has been superseded. On any store it ends, and it accepts exactly a childless observation
    with an intact path; on a lineage that is exactly the tip of a chain.
   */
  method ValidateActiveLineage(ghost files: Files, observation: Observation, all: seq<Observation>)
    returns (r: Result<()>)
    requires KeyedById(files) && Listing(files, all) && observation in all
    ensures r.Success? <==> Childless(files, observation.id) && Intact(files, observation.id)
    ensures Lineage(files) ==> r == if Childless(files, observation.id) then Success(())
            else Failure("field_observation_superseded")
  {
    hide *;
    var byId := LineageById(files, all);
    var children := ChildrenByParent(all);
    var down := Descend(files, observation, all, children);
    if down.Failure? {
      return Failure(down.error);
    }
    r := ClimbToRoot(byId, observation, all, children, down.value);
    if r.Success? {
      ChildList(files, all, children, observation.id);
      if Direct(children, observation.id) != [] {
        r := Failure("field_observation_superseded");
      }
    }
  }

  /** The climb of `_validate_active_lineage`, after the descent has marked `seen`. */
  method ClimbToRoot(files: Files, observation: Observation, ghost all: seq<Observation>,
                     children: map<Id, seq<Observation>>, seen: set<Id>)
    returns (r: Result<()>)
    requires KeyedById(files) && Listing(files, all) && observation in all
    requires Tabulates(children, all)
    requires observation.id in seen && seen <= files.Keys
    requires Lineage(files) ==> Deeper(files, seen - {observation.id}, Depth(files, observation.id))
    ensures r.Success? ==> Intact(files, observation.id)
    ensures Lineage(files) ==> r == Success(())
    ensures seen == {observation.id} ==> (r.Success? <==> Intact(files, observation.id))
  {
    var visited, current := seen, observation;
    ghost var walked: set<Id> := {};
    Listed(files, all, observation);
    assert Climbing(files, observation.id, seen, walked, visited, current.id);
    while current.supersedes.Some?
      invariant current.id in files && files[current.id] == current
      invariant Climbing(files, observation.id, seen, walked, visited, current.id)
      decreases |files.Keys - visited|
    {
      assert visited <= files.Keys;
      var id := current.supersedes.value;
      if id !in files || files[id].decisionId != current.decisionId {
        assert !SameDecision(files, current.id);
        ClimbingStuck(files, observation.id, seen, walked, visited, current.id);
        return Failure("field_observation_supersession_corrupt");
      }
      assert SameDecision(files, current.id);
      if id in visited {
        ClimbingStuck(files, observation.id, seen, walked, visited, current.id);
        return Failure("field_observation_supersession_corrupt");
      }
      ChildList(files, all, children, id);
      if |Direct(children, id)| > 1 {
        ClimbingStuck(files, observation.id, seen, walked, visited, current.id);
        return Failure("field_observation_supersession_ambiguous");
      }
      ClimbingStep(files, observation.id, seen, walked, visited, current.id);
      OneLess(files.Keys, visited, id);
      visited, walked := visited + {id}, walked + {current.id};
      current := files[id];
      assert current.id == id;
    }
    IntactStep(files, current.id);
    r := Success(());
  }

  /** What a run of saves has done so far. */
  ghost predicate Saved(before: Files, now: Files, observations: seq<Observation>, n: nat, results: seq<Result<bool>>) {
    && |results| == n <= |observations|
    && (forall id :: id in before ==> id in now && now[id] == before[id])
    && (forall i :: 0 <= i < n && results[i].Success? ==>
        observations[i].id in now && now[observations[i].id] == observations[i])
    && (forall id :: id in now && id !in before ==>
          exists i :: 0 <= i < n && results[i].Success? && results[i].value && observations[i] == now[id])
  }

  lemma SavedStep(before: Files, past: Files, now: Files, observations: seq<Observation>, n: nat,
                  results: seq<Result<bool>>, r: Result<bool>)
    requires Saved(before, past, observations, n, results) && n < |observations|
    requires now == if r.Success? && r.value then past[observations[n].id := observations[n]] else past
    requires r.Success? ==> if r.value then observations[n].id !in past
                            else observations[n].id in past && past[observations[n].id] == observations[n]
    ensures Saved(before, now, observations, n + 1, results + [r])
  {
    var all := results + [r];
    forall id | id in now && id !in before
      ensures exists i :: 0 <= i < n + 1 && all[i].Success? && all[i].value && observations[i] == now[id]
    {
      if id in past {
        var i :| 0 <= i < n && results[i].Success? && results[i].value && observations[i] == past[id];
        assert all[i] == results[i];
      } else {
        assert all[n] == r;
      }
    }
  }

  lemma SavedMeans(before: Files, now: Files, observations: seq<Observation>, results: seq<Result<bool>>)
    requires Saved(before, now, observations, |observations|, results)
    ensures |results| == |observations|
    ensures forall id :: id in before ==> id in now && now[id] == before[id]
    ensures forall i :: 0 <= i < |observations| && results[i].Success? ==>
              observations[i].id in now && now[observations[i].id] == observations[i]
    ensures forall id :: id in now && id !in before ==>
              exists i :: 0 <= i < |observations| && results[i].Success? && results[i].value
                          && observations[i] == now[id]
  {
  }

  class FieldObservationStore {
    var files: Files

    ghost predicate Valid()
      reads this
    {
      Lineage(files)
    }

    constructor ()
      ensures Valid() && files == map[]
    {
      files := map[];
    }

    /** `_load_all`. */
    method LoadAll() returns (all: seq<Observation>)
      requires KeyedById(files)
      ensures Listing(files, all)
    {
      all := [];
      var rest := files.Keys;
      while rest != {}
        invariant rest <= files.Keys
        invariant forall i, j :: 0 <= i < j < |all| ==> all[i].id != all[j].id
        invariant forall o :: o in all <==> o.id in files && o.id !in rest && files[o.id] == o
        decreases |rest|
      {
        var id :| id in rest;
        all := all + [files[id]];
        rest := rest - {id};
      }
    }

    /** `_validate_supersession`: the parent, then every ancestor, then whether the parent is still free. */
    method ValidateSupersession(o: Observation) returns (r: Result<()>)
      requires KeyedById(files) && o.id !in files
      ensures r.Success? <==> Supersedable(files, o)
      ensures Lineage(files) && r.Failure? ==>
                var parent := o.supersedes.value;
                r.error == if parent !in files then "superseded_observation_missing"
                           else if files[parent].decisionId != o.decisionId
                                then "superseded_observation_decision_mismatch"
                           else "observation_already_superseded"
    {
      if o.supersedes.None? {
        return Success(());
      }
      var parent := o.supersedes.value;
      if parent !in files {
        return Failure("superseded_observation_missing");
      }
      if files[parent].decisionId != o.decisionId {
        return Failure("superseded_observation_decision_mismatch");
      }
      r := ClimbAncestors(o.id, parent);
      if r.Failure? {
        return;
      }
      var all := LoadAll();
      var taken := false;
      for i := 0 to |all|
        invariant taken <==> exists k :: 0 <= k < i && all[k].supersedes == Some(parent)
      {
        taken := taken || all[i].supersedes == Some(parent);
      }
      assert taken <==> !Childless(files, parent) by {
        assert forall k :: 0 <= k < |all| ==> all[k] in all;
        assert forall c :: c in files ==> files[c] in all;
      }
      r := if taken then Failure("observation_already_superseded") else Success(());
    }

    /** The ancestor loop of `_validate_supersession`. */
    method ClimbAncestors(newId: Id, parent: Id) returns (r: Result<()>)
      requires KeyedById(files) && newId !in files && parent in files
      ensures r.Success? <==> Rooted(files, parent)
      ensures Valid() ==> r.Success?
    {
      var visited, current := {newId}, files[parent];
      assert current.id == parent;
      ghost var walked: set<Id> := {};
      assert Climbed(files, walked, parent) && Deeper(files, walked, Depth(files, parent));
      while current.supersedes.Some?
        invariant current.id in files && files[current.id] == current
        invariant visited == walked + {newId} && walked <= files.Keys
        invariant Rooted(files, parent) <==> Rooted(files, current.id)
        invariant Climbed(files, walked, current.id)
        invariant Valid() ==> Deeper(files, walked, Depth(files, current.id))
        decreases |files.Keys + {newId} - visited|
      {
        if Valid() {
          LineageStep(files, walked, current.id);
          assert current.id !in walked;
        }
        if current.id in visited {
          CycleFound(files, walked, current.id);
          return Failure("observation_supersession_cycle");
        }
        RootedStep(files, current.id);
        ClimbStep(files, walked, current.id);
        OneLess(files.Keys + {newId}, visited, current.id);
        visited, walked := visited + {current.id}, walked + {current.id};
        var ancestor := current.supersedes.value;
        if ancestor !in files {
          assert !Rooted(files, ancestor);
          return Failure("superseded_observation_missing");
        }
        current := files[ancestor];
        assert current.id == ancestor;
      }
      RootedStep(files, current.id);
      r := Success(());
    }

    /**
      `save`. On any store, even a damaged one, a new observation is stored exactly when its parent is present,
      of the same decision, childless and on a path to a root; on a lineage the refusal names the reason.
     */
    method Save(o: Observation) returns (r: Result<bool>)
      requires KeyedById(files)
      modifies this
      ensures KeyedById(files) && (old(Valid()) ==> Valid())
      ensures r.Success? <==> if o.id in old(files) then old(files)[o.id] == o else Supersedable(old(files), o)
      ensures r.Success? ==> (r.value <==> o.id !in old(files))
      ensures files == if r.Success? && r.value then old(files)[o.id := o] else old(files)
      ensures o.id in old(files) && old(files)[o.id] != o ==> r == Failure("field_observation_conflict")
      ensures old(Valid()) && o.id !in old(files) && r.Failure? ==>
                var parent := o.supersedes.value;
                r.error == if parent !in files then "superseded_observation_missing"
                           else if files[parent].decisionId != o.decisionId
                                then "superseded_observation_decision_mismatch"
                           else "observation_already_superseded"
    {
      if o.id in files {
        return if files[o.id] == o then Success(false) else Failure("field_observation_conflict");
      }
      var checked := ValidateSupersession(o);
      if checked.Failure? {
        return Failure(checked.error);
      }
      ghost var before := files;
      files := files[o.id := o];
      if Lineage(before) {
        SaveKeepsLineage(before, o);
      }
      r := Success(true);
    }

    /** Any run of saves: stored observations stay as they are and the store stays a lineage. */
    method SaveAll(observations: seq<Observation>) returns (results: seq<Result<bool>>)
      requires Valid()
      modifies this
      ensures Valid() && |results| == |observations|
      ensures forall id :: id in old(files) ==> id in files && files[id] == old(files)[id]
      ensures forall i :: 0 <= i < |observations| && results[i].Success? ==>
                observations[i].id in files && files[observations[i].id] == observations[i]
      ensures forall id :: id in files && id !in old(files) ==>
                exists i :: 0 <= i < |observations| && results[i].Success? && results[i].value
                            && observations[i] == files[id]
    {
      results := [];
      ghost var before := files;
      assert Saved(before, files, observations, 0, results);
      hide *;
      for n := 0 to |observations|
        invariant Valid() && Saved(before, files, observations, n, results)
      {
        ValidIsKeyed();
        ghost var past := files;
        var r := Save(observations[n]);
        SavedStep(before, past, files, observations, n, results, r);
        results := results + [r];
      }
      SavedMeans(before, files, observations, results);
    }

    lemma ValidIsKeyed()
      requires Valid()
      ensures KeyedById(files)
    {
    }

    /** `active_observation_lease`, up to what it yields. */
    method ActiveObservationLease(id: Id) returns (r: Result<Observation>)
      requires KeyedById(files)
      ensures r.Success? <==> id in files && Childless(files, id) && Intact(files, id)
      ensures r.Success? ==> r.value == files[id]
      ensures Valid() ==> (r.Success? <==> id in files && Childless(files, id))
    {
      if id !in files {
        return Failure("field_observation_missing");
      }
      var all := LoadAll();
      var checked := ValidateActiveLineage(files, files[id], all);
      r := if checked.Success? then Success(files[id]) else Failure(checked.error);
    }
  }

  // ---- the paged catalogue ----

  datatype Page = Page(items: seq<Observation>, nextBefore: Option<Id>)

  const CATALOGUE_LIMIT: nat := 10000
  const PAGE_LIMIT: nat := 50

  ghost predicate DistinctIds(s: seq<Observation>) {
    forall i, j :: 0 <= i < j < |s| ==> s[i].id != s[j].id
  }

  /** Newest first; `rank` orders observations by observation time and then identity. */
  ghost predicate NewestFirst(rank: Observation -> nat, s: seq<Observation>) {
    forall i, j :: 0 <= i < j < |s| ==> rank(s[i]) > rank(s[j])
  }

  function Position(s: seq<Observation>, id: Id): (k: nat)
    ensures k <= |s| && (k < |s| ==> s[k].id == id)
    ensures forall i :: 0 <= i < k ==> s[i].id != id
  {
    if s == [] || s[0].id == id then 0 else 1 + Position(s[1..], id)
  }

  /** Where a page begins: after its anchor. */
  function Start(newest: seq<Observation>, before: Option<Id>): Option<nat> {
    if before.None? then Some(0)
    else
      var k := Position(newest, before.value);
      if k == |newest| then None else Some(k + 1)
  }

  function PageFrom(newest: seq<Observation>, limit: nat, start: nat): Page
    requires 1 <= limit && start <= |newest|
  {
    var end := if start + limit < |newest| then start + limit else |newest|;
    Page(newest[start..end], if end < |newest| then Some(newest[end - 1].id) else None)
  }

  /** Everything a reader collects who follows `next_before` until there is none. */
  function Follow(newest: seq<Observation>, limit: nat, before: Option<Id>): seq<Observation>
    requires 1 <= limit && DistinctIds(newest) && Start(newest, before).Some?
    decreases |newest| - Start(newest, before).value
  {
    var start := Start(newest, before).value;
    var page := PageFrom(newest, limit, start);
    page.items + if page.nextBefore.None? then [] else Follow(newest, limit, page.nextBefore)
  }

  lemma PageAfter(newest: seq<Observation>, k: nat)
    requires DistinctIds(newest) && 0 < k <= |newest|
    ensures Start(newest, Some(newest[k - 1].id)) == Some(k)
  {
    assert Position(newest, newest[k - 1].id) == k - 1;
  }

  lemma JoinsUp(newest: seq<Observation>, start: nat, end: nat)
    requires start <= end <= |newest|
    ensures newest[start..end] + newest[end..] == newest[start..]
  {
  }

  /** Paging loses nothing and repeats nothing, whatever the page size. */
  lemma {:induction false} PagesCoverEverything(newest: seq<Observation>, limit: nat, before: Option<Id>)
    requires 1 <= limit && DistinctIds(newest) && Start(newest, before).Some?
    ensures Follow(newest, limit, before) == newest[Start(newest, before).value..]
    decreases |newest| - Start(newest, before).value
  {
    var start := Start(newest, before).value;
    var page := PageFrom(newest, limit, start);
    if page.nextBefore.Some? {
      PageAfter(newest, start + limit);
      PagesCoverEverything(newest, limit, page.nextBefore);
      JoinsUp(newest, start, start + limit);
    }
  }

  /** The cut compares sort keys; it is the cut after the anchor's own position. */
  method OlderThan(observations: seq<Observation>, rank: Observation -> nat, k: nat) returns (older: seq<Observation>)
    requires NewestFirst(rank, observations) && k < |observations|
    ensures older == observations[k + 1..]
  {
    var anchor := rank(observations[k]);
    older := [];
    for i := 0 to |observations|
      invariant older == if i <= k then [] else observations[k + 1..i]
    {
      if rank(observations[i]) < anchor {
        older := older + [observations[i]];
      }
    }
  }

  /**
    `list_page` over every stored observation: sort newest first, cut everything up to the anchor, return one page.
   */
  method ListPage(all: seq<Observation>, rank: Observation -> nat, limit: int, before: Option<Id>,
                  ghost newest: seq<Observation>)
    returns (r: Result<Page>)
    requires NewestFirst(rank, newest) && multiset(newest) == multiset(all) && DistinctIds(newest)
    ensures r.Success? <==> 1 <= limit <= PAGE_LIMIT && |all| <= CATALOGUE_LIMIT && Start(newest, before).Some?
    ensures r.Success? ==> r.value == PageFrom(newest, limit, Start(newest, before).value)
  {
    if !(1 <= limit <= PAGE_LIMIT) {
      return Failure("invalid_observation_page");
    }
    if |all| > CATALOGUE_LIMIT {
      return Failure("observation_catalogue_scan_limit");
    }
    var observations := SortNewestFirst(all, rank, newest);
    if before.Some? {
      var k := Position(observations, before.value);
      if k == |observations| {
        return Failure("invalid_observation_page");
      }
      observations := OlderThan(observations, rank, k);
    }
    var items := if limit < |observations| then observations[..limit] else observations;
    r := Success(Page(items, if |observations| > limit then Some(items[|items| - 1].id) else None));
  }

  method SortNewestFirst(all: seq<Observation>, rank: Observation -> nat, ghost newest: seq<Observation>)
    returns (s: seq<Observation>)
    requires NewestFirst(rank, newest) && multiset(newest) == multiset(all)
    ensures s == newest
  {
    var ascending := Merging.Sorted(rank, all);
    s := [];
    for i := 0 to |ascending|
      invariant |s| == i && forall k :: 0 <= k < i ==> s[k] == ascending[i - 1 - k]
      invariant multiset(s) == multiset(ascending[..i])
    {
      assert ascending[..i + 1] == ascending[..i] + [ascending[i]];
      s := [ascending[i]] + s;
    }
    assert ascending[..|ascending|] == ascending;
    SortedTwice(rank, s, newest);
  }

  lemma SameHighest(rank: Observation -> nat, s: seq<Observation>, newest: seq<Observation>)
    requires forall i, j :: 0 <= i < j < |s| ==> rank(s[i]) >= rank(s[j])
    requires NewestFirst(rank, newest) && multiset(s) == multiset(newest) && s != []
    ensures newest != [] && s[0] == newest[0]
  {
    assert s[0] in multiset(newest) && newest != [] && newest[0] in multiset(s);
    assert rank(s[0]) == rank(newest[0]);
  }

  lemma SameTails(s: seq<Observation>, newest: seq<Observation>)
    requires s != [] && newest != [] && s[0] == newest[0] && multiset(s) == multiset(newest)
    ensures multiset(s[1..]) == multiset(newest[1..])
  {
    assert s == [s[0]] + s[1..] && newest == [newest[0]] + newest[1..];
    assert multiset(s[1..]) == multiset(s) - multiset{s[0]};
  }

  lemma {:induction false} SortedTwice(rank: Observation -> nat, s: seq<Observation>, newest: seq<Observation>)
    requires forall i, j :: 0 <= i < j < |s| ==> rank(s[i]) >= rank(s[j])
    requires NewestFirst(rank, newest) && multiset(s) == multiset(newest)
    ensures s == newest
  {
    if s == [] {
      assert |multiset(newest)| == 0;
    } else {
      SameHighest(rank, s, newest);
      SameTails(s, newest);
      SortedTwice(rank, s[1..], newest[1..]);
      assert s == [s[0]] + s[1..] && newest == [newest[0]] + newest[1..];
    }
  }
}
