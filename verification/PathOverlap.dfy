/**
  Whether two directories overlap, or would once they are created. Directories are compared by identity as far as
  they exist; the rest of a path is compared by case-folded names, because nobody knows yet how the directory that
  will hold it treats case.
 */
module PathOverlap {
  import opened Wrappers

  type Directory = nat

  datatype Name = Name(text: string)

  /** A resolved absolute path: the names below the root. */
  type Path = seq<Name>

  /** The real directories: what a name leads to, and where each directory hangs. */
  datatype Tree = Tree(root: Directory, lookup: (Directory, Name) -> Option<Directory>,
                       parent: Directory -> Option<Directory>, depth: Directory -> nat)

  /** Two names lead to one directory only if they differ in case at most; a directory may also tell them apart. */
  ghost predicate Wellformed(fold: Name -> Name, t: Tree) {
    && t.depth(t.root) == 0
    && (forall d: Directory, n: Name :: t.lookup(d, n).Some? ==> t.parent(t.lookup(d, n).value) == Some(d))
    && (forall d: Directory, n: Name, m: Name :: t.lookup(d, n).Some? && t.lookup(d, n) == t.lookup(d, m) ==>
        fold(n) == fold(m))
    && (forall c: Directory :: t.parent(c).Some? ==> t.depth(c) == t.depth(t.parent(c).value) + 1)
  }

  /** A later state: directories have been created, none has gone. */
  ghost predicate Extends(t: Tree, u: Tree) {
    u.root == t.root && forall d: Directory, n: Name :: t.lookup(d, n).Some? ==> u.lookup(d, n) == t.lookup(d, n)
  }

  function Resolve(t: Tree, p: Path): Option<Directory> {
    if p == [] then Some(t.root)
    else
      var up := Resolve(t, p[..|p| - 1]);
      if up.None? then None else t.lookup(up.value, p[|p| - 1])
  }

  ghost predicate Above(t: Tree, a: Directory, b: Directory)
    decreases t.depth(b)
    requires forall c: Directory :: t.parent(c).Some? ==> t.depth(c) == t.depth(t.parent(c).value) + 1
  {
    a == b || (t.parent(b).Some? && Above(t, a, t.parent(b).value))
  }

  /** Both exist and one is the other or an ancestor of it. */
  ghost predicate Nested(fold: Name -> Name, t: Tree, p: Path, q: Path)
    requires Wellformed(fold, t)
  {
    && Resolve(t, p).Some? && Resolve(t, q).Some?
    && (Above(t, Resolve(t, p).value, Resolve(t, q).value) || Above(t, Resolve(t, q).value, Resolve(t, p).value))
  }

  // ---- facts about trees ----

  lemma {:induction false} DepthOfPath(fold: Name -> Name, t: Tree, p: Path)
    requires Wellformed(fold, t) && Resolve(t, p).Some?
    ensures t.depth(Resolve(t, p).value) == |p|
    ensures forall i :: 0 <= i <= |p| ==> Resolve(t, p[..i]).Some?
  {
    if p != [] {
      DepthOfPath(fold, t, p[..|p| - 1]);
      forall i | 0 <= i <= |p| ensures Resolve(t, p[..i]).Some? {
        if i < |p| {
          assert p[..|p| - 1][..i] == p[..i];
        } else {
          assert p[..i] == p;
        }
      }
    } else {
      assert p[..0] == p;
    }
  }

  lemma {:induction false} ResolvesLater(t: Tree, u: Tree, p: Path)
    requires Extends(t, u) && Resolve(t, p).Some?
    ensures Resolve(u, p) == Resolve(t, p)
  {
    if p != [] {
      ResolvesLater(t, u, p[..|p| - 1]);
    }
  }

  /** Paths of one length to one directory agree at every step, up to case. */
  lemma {:induction false} SameDirectory(fold: Name -> Name, t: Tree, p: Path, q: Path)
    requires Wellformed(fold, t) && |p| == |q| && Resolve(t, p).Some? && Resolve(t, p) == Resolve(t, q)
    ensures forall i :: 0 <= i <= |p| ==> Resolve(t, p[..i]) == Resolve(t, q[..i])
    ensures forall i :: 0 <= i < |p| ==> fold(p[i]) == fold(q[i])
  {
    if p != [] {
      var m := |p| - 1;
      DepthOfPath(fold, t, p);
      DepthOfPath(fold, t, q);
      SameDirectory(fold, t, p[..m], q[..m]);
      forall i | 0 <= i <= |p| ensures Resolve(t, p[..i]) == Resolve(t, q[..i]) {
        if i <= m {
          assert p[..m][..i] == p[..i] && q[..m][..i] == q[..i];
        } else {
          assert p[..i] == p && q[..i] == q;
        }
      }
      forall i | 0 <= i < |p| ensures fold(p[i]) == fold(q[i]) {
        if i < m {
          assert p[..m][i] == p[i] && q[..m][i] == q[i];
        }
      }
    }
  }

  /** An ancestor on the tree is a prefix of the path, up to case. */
  lemma {:induction false} AboveIsPrefix(fold: Name -> Name, t: Tree, p: Path, q: Path)
    requires Wellformed(fold, t) && Resolve(t, p).Some? && Resolve(t, q).Some?
    ensures Above(t, Resolve(t, p).value, Resolve(t, q).value) <==> |p| <= |q| && Resolve(t, q[..|p|]) == Resolve(t, p)
    decreases |q|
  {
    DepthOfPath(fold, t, p);
    DepthOfPath(fold, t, q);
    var a, b := Resolve(t, p).value, Resolve(t, q).value;
    assert q[..|q|] == q;
    if q != [] {
      var up := q[..|q| - 1];
      assert t.parent(b) == Resolve(t, up);
      AboveIsPrefix(fold, t, p, up);
      if |p| < |q| {
        assert up[..|p|] == q[..|p|];
      }
    } else {
      NoParentAtRoot(fold, t, b);
    }
  }

  lemma NoParentAtRoot(fold: Name -> Name, t: Tree, b: Directory)
    requires Wellformed(fold, t) && t.depth(b) == 0
    ensures t.parent(b).None?
  {
  }

  // ---- the decision ----

  /** The deepest existing directory of a path has this many names. */
  ghost predicate Existing(t: Tree, p: Path, k: nat) {
    && k <= |p| && Resolve(t, p[..k]).Some? && (k < |p| ==> Resolve(t, p[..k + 1]).None?)
  }

  /** `_ancestry`: existing directories from the deepest up to the root, each with the names below it. */
  ghost predicate Ancestry(t: Tree, p: Path, k: nat, chain: seq<(Directory, Path)>) {
    && Existing(t, p, k) && |chain| == k + 1
    && forall i :: 0 <= i <= k ==> Some(chain[i].0) == Resolve(t, p[..k - i]) && chain[i].1 == p[k - i..]
  }

  predicate FoldedPrefix(fold: Name -> Name, a: Path, b: Path) {
    |a| <= |b| && forall i | 0 <= i < |a| :: fold(a[i]) == fold(b[i])
  }

  /** The existing directories below which both paths run together. */
  ghost predicate Deepest(t: Tree, p: Path, q: Path, k: nat, l: nat, s: nat) {
    && s <= k <= |p| && s <= l <= |q|
    && Resolve(t, p[..s]).Some? && Resolve(t, p[..s]) == Resolve(t, q[..s])
    && forall i :: s < i <= k && i <= l ==> Resolve(t, p[..i]) != Resolve(t, q[..i])
  }

  /** If one will be above the other, then the existing parts already lead to the same directories. */
  lemma PartsAgree(fold: Name -> Name, t: Tree, u: Tree, p: Path, q: Path, k: nat, l: nat, m: nat)
    requires Wellformed(fold, t) && Wellformed(fold, u) && Extends(t, u)
    requires Existing(t, p, k) && Existing(t, q, l) && m <= k && m <= l && |p| <= |q|
    requires forall i :: 0 <= i <= |p| ==> Resolve(u, p[..i]) == Resolve(u, q[..|p|][..i])
    ensures Resolve(t, p[..m]).Some? && Resolve(t, p[..m]) == Resolve(t, q[..m])
  {
    hide Wellformed, Extends, Resolve;
    DepthOfPath(fold, t, p[..k]);
    DepthOfPath(fold, t, q[..l]);
    assert p[..k][..m] == p[..m] && q[..l][..m] == q[..m] && q[..|p|][..m] == q[..m];
    ResolvesLater(t, u, p[..m]);
    ResolvesLater(t, u, q[..m]);
  }

  /** If one will be above the other, then their existing parts do not diverge and the names go on alike. */
  lemma OverlapShows(fold: Name -> Name, t: Tree, u: Tree, p: Path, q: Path, k: nat, l: nat, s: nat)
    requires Wellformed(fold, t) && Wellformed(fold, u) && Extends(t, u)
    requires Existing(t, p, k) && Existing(t, q, l) && Deepest(t, p, q, k, l, s)
    requires Resolve(u, p).Some? && Resolve(u, q).Some? && Above(u, Resolve(u, p).value, Resolve(u, q).value)
    ensures s == k || s == l
    ensures FoldedPrefix(fold, p[s..], q[s..])
  {
    hide Wellformed, Extends, Resolve, Above;
    AboveIsPrefix(fold, u, p, q);
    SameDirectory(fold, u, p, q[..|p|]);
    var m := if k < l then k else l;
    PartsAgree(fold, t, u, p, q, k, l, m);
    forall i | 0 <= i < |p| - s ensures fold(p[s..][i]) == fold(q[s..][i]) {
      assert q[..|p|][s + i] == q[s + i];
    }
  }

  lemma DeepestIsSymmetric(t: Tree, p: Path, q: Path, k: nat, l: nat, s: nat)
    requires Deepest(t, p, q, k, l, s)
    ensures Deepest(t, q, p, l, k, s)
  {
  }

  /** The roots are shared, so there is a deepest shared directory. */
  lemma DeepestExists(t: Tree, p: Path, q: Path, k: nat, l: nat, from: nat) returns (s: nat)
    requires k <= |p| && l <= |q| && from <= k && from <= l && forall i :: 0 <= i <= k ==> Resolve(t, p[..i]).Some?
    requires forall i :: from < i <= k && i <= l ==> Resolve(t, p[..i]) != Resolve(t, q[..i])
    ensures Deepest(t, p, q, k, l, s)
    decreases from
  {
    if Resolve(t, p[..from]) == Resolve(t, q[..from]) {
      s := from;
    } else {
      assert from > 0 by {
        assert p[..0] == [] && q[..0] == [];
      }
      s := DeepestExists(t, p, q, k, l, from - 1);
    }
  }

  /** The condition that `_overlaps` ends up testing. */
  predicate RunsTogether(fold: Name -> Name, p: Path, q: Path, k: nat, l: nat, s: nat)
    requires s <= |p| && s <= |q|
  {
    (s == k || s == l) && (FoldedPrefix(fold, p[s..], q[s..]) || FoldedPrefix(fold, q[s..], p[s..]))
  }

  ghost predicate NeverNested(fold: Name -> Name, t: Tree, p: Path, q: Path) {
    forall u: Tree :: Wellformed(fold, u) && Extends(t, u) ==> !Nested(fold, u, p, q)
  }

  lemma ApartForever(fold: Name -> Name, t: Tree, p: Path, q: Path, k: nat, l: nat, s: nat)
    requires Wellformed(fold, t) && Existing(t, p, k) && Existing(t, q, l) && Deepest(t, p, q, k, l, s)
    requires !RunsTogether(fold, p, q, k, l, s)
    ensures NeverNested(fold, t, p, q)
  {
    assert s <= |p| && s <= |q|;
    hide Extends, Resolve, Above, Deepest, Existing;
    forall u: Tree | Wellformed(fold, u) && Extends(t, u) ensures !Nested(fold, u, p, q) {
      if Nested(fold, u, p, q) {
        DeepestIsSymmetric(t, p, q, k, l, s);
        if Above(u, Resolve(u, p).value, Resolve(u, q).value) {
          OverlapShows(fold, t, u, p, q, k, l, s);
        } else {
          OverlapShows(fold, t, u, q, p, l, k, s);
        }
      }
    }
  }

  /** A real directory of one path is in the other's ancestry exactly when both paths lead to it at the same depth. */
  lemma InAncestry(fold: Name -> Name, t: Tree, p: Path, q: Path, i: nat, l: nat, chain: seq<(Directory, Path)>, j: nat)
    requires Wellformed(fold, t) && i <= |p| && Resolve(t, p[..i]).Some? && Ancestry(t, q, l, chain) && j <= l
    ensures chain[j].0 == Resolve(t, p[..i]).value <==> l - j == i && Resolve(t, q[..i]) == Resolve(t, p[..i])
  {
    assert Some(chain[j].0) == Resolve(t, q[..l - j]);
    DepthOfPath(fold, t, p[..i]);
    DepthOfPath(fold, t, q[..l - j]);
  }

  /** The first loop of `_ancestry`: up to the deepest existing directory. */
  method DeepestDirectory(t: Tree, path: Path) returns (current: Path, missing: Path)
    ensures current <= path && missing == path[|current|..] && Existing(t, path, |current|)
  {
    missing, current := [], path;
    assert path[..|path|] == path;
    while Resolve(t, current).None?
      invariant |current| <= |path| && current == path[..|current|] && missing == path[|current|..]
      invariant |current| < |path| ==> Resolve(t, path[..|current| + 1]).None?
      decreases |current|
    {
      missing := [current[|current| - 1]] + missing;
      current := current[..|current| - 1];
    }
  }

  /** One name up from an existing directory. */
  lemma OneUp(t: Tree, path: Path, k: nat)
    requires 0 < k <= |path| && Resolve(t, path[..k]).Some?
    ensures Resolve(t, path[..k - 1]).Some?
    ensures path[..k][..k - 1] == path[..k - 1] && [path[..k][k - 1]] + path[k..] == path[k - 1..]
  {
    assert path[..k][..k - 1] == path[..k - 1];
  }

  /** `_ancestry`. */
  method AncestryOf(fold: Name -> Name, t: Tree, path: Path) returns (chain: seq<(Directory, Path)>, ghost k: nat)
    requires Wellformed(fold, t)
    ensures Ancestry(t, path, k, chain)
  {
    var current, missing := DeepestDirectory(t, path);
    hide Resolve, Wellformed;
    k := |current|;
    assert current == path[..k];
    chain := [(Resolve(t, current).value, missing)];
    while current != []
      invariant |current| <= k <= |path| && current == path[..|current|] && missing == path[|current|..]
      invariant Resolve(t, current).Some? && |chain| == k - |current| + 1
      invariant forall i :: 0 <= i < |chain| ==>
                  Some(chain[i].0) == Resolve(t, path[..k - i]) && chain[i].1 == path[k - i..]
      decreases |current|
    {
      OneUp(t, path, |current|);
      missing, current := [current[|current| - 1]] + missing, current[..|current| - 1];
      chain := chain + [(Resolve(t, current).value, missing)];
    }
  }

  /** An existing endpoint that is, by identity, in the other path's ancestry. */
  method EndpointWithin(fold: Name -> Name, t: Tree, p: Path, q: Path, own: seq<(Directory, Path)>,
                        other: seq<(Directory, Path)>, ghost k: nat, ghost l: nat)
    returns (within: bool)
    requires Wellformed(fold, t) && Ancestry(t, p, k, own) && Ancestry(t, q, l, other)
    ensures within <==> k == |p| && k <= l && Resolve(t, q[..k]) == Resolve(t, p)
  {
    assert p[..|p|] == p;
    within := false;
    if own[0].1 != [] {
      return;
    }
    for j := 0 to |other|
      invariant !within && forall i :: 0 <= i < j ==> other[i].0 != own[0].0
    {
      InAncestry(fold, t, p, q, k, l, other, j);
      if other[j].0 == own[0].0 {
        return true;
      }
    }
    if k <= l {
      InAncestry(fold, t, p, q, k, l, other, l - k);
    }
  }

  lemma ExtendsReflexive(t: Tree)
    ensures Extends(t, t)
  {
  }

  /** An endpoint inside the other's ancestry is an ancestor of it now. */
  lemma WithinIsNested(fold: Name -> Name, t: Tree, p: Path, q: Path)
    requires Wellformed(fold, t) && Resolve(t, p).Some? && Resolve(t, q).Some? && |p| <= |q|
             && Resolve(t, q[..|p|]) == Resolve(t, p)
    ensures Nested(fold, t, p, q) && Nested(fold, t, q, p)
  {
    AboveIsPrefix(fold, t, p, q);
  }

  /** Two existing endpoints, neither within the other's ancestry, stay apart. */
  lemma ExistingApart(fold: Name -> Name, t: Tree, p: Path, q: Path)
    requires Wellformed(fold, t) && Resolve(t, p).Some? && Resolve(t, q).Some?
    requires !(|p| <= |q| && Resolve(t, q[..|p|]) == Resolve(t, p))
             && !(|q| <= |p| && Resolve(t, p[..|q|]) == Resolve(t, q))
    ensures NeverNested(fold, t, p, q) && !Nested(fold, t, p, q)
  {
    assert p[..|p|] == p && q[..|q|] == q;
    DepthOfPath(fold, t, p);
    var s := DeepestExists(t, p, q, |p|, |q|, if |p| < |q| then |p| else |q|);
    ApartForever(fold, t, p, q, |p|, |q|, s);
    ExtendsReflexive(t);
  }

  /** The deepest shared real directory, as indices into both chains. */
  method Shared(fold: Name -> Name, t: Tree, p: Path, q: Path, left: seq<(Directory, Path)>,
                right: seq<(Directory, Path)>, ghost k: nat, ghost l: nat)
    returns (i: nat, j: nat)
    requires Wellformed(fold, t) && Ancestry(t, p, k, left) && Ancestry(t, q, l, right)
    ensures i <= k && j <= l && k - i == l - j && left[i].0 == right[j].0 && Deepest(t, p, q, k, l, k - i)
  {
    hide Wellformed, Resolve;
    ghost var s;
    assert forall x :: 0 <= x <= k ==> Resolve(t, p[..x]).Some? by {
      forall x | 0 <= x <= k ensures Resolve(t, p[..x]).Some? {
        assert Some(left[k - x].0) == Resolve(t, p[..k - (k - x)]);
      }
    }
    s := DeepestExists(t, p, q, k, l, if k < l then k else l);
    i := 0;
    while i < |left|
      invariant i <= k - s
      decreases |left| - i
    {
      j := 0;
      while j < |right|
        invariant j <= l + 1
        invariant k - i <= l && Resolve(t, q[..k - i]) == Resolve(t, p[..k - i]) ==> j <= l - (k - i)
        decreases |right| - j
      {
        assert Some(left[i].0) == Resolve(t, p[..k - i]);
        InAncestry(fold, t, p, q, k - i, l, right, j);
        if left[i].0 == right[j].0 {
          return;
        }
        j := j + 1;
      }
      i := i + 1;
    }
    assert false;
  }

  /**
    `_overlaps`. When both directories exist the answer is exact. In any case a negative answer is final: however
    directories are created later, and whether or not their parents tell case apart, neither path will be the other
    or an ancestor of it.
   */
  method Overlaps(fold: Name -> Name, t: Tree, left: Path, right: Path) returns (overlap: bool)
    requires Wellformed(fold, t)
    ensures Resolve(t, left).Some? && Resolve(t, right).Some? ==> (overlap <==> Nested(fold, t, left, right))
    ensures !overlap ==> NeverNested(fold, t, left, right)
  {
    hide Wellformed, Extends, Nested, NeverNested, Resolve, Deepest;
    var leftChain, k := AncestryOf(fold, t, left);
    var rightChain, l := AncestryOf(fold, t, right);
    assert left[..|left|] == left && right[..|right|] == right;
    var leftWithin := EndpointWithin(fold, t, left, right, leftChain, rightChain, k, l);
    if leftWithin {
      if Resolve(t, right).Some? && Resolve(t, left).Some? {
        WithinIsNested(fold, t, left, right);
      }
      return true;
    }
    var rightWithin := EndpointWithin(fold, t, right, left, rightChain, leftChain, l, k);
    if rightWithin {
      if Resolve(t, right).Some? && Resolve(t, left).Some? {
        WithinIsNested(fold, t, right, left);
      }
      return true;
    }
    if leftChain[0].1 == [] && rightChain[0].1 == [] {
      ExistingApart(fold, t, left, right);
      return false;
    }
    var i, j := Shared(fold, t, left, right, leftChain, rightChain, k, l);
    MissingSide(fold, t, left, right, k, l);
    var suffixL, suffixR := leftChain[i].1, rightChain[j].1;
    overlap := (leftChain[i].0 == leftChain[0].0 || leftChain[i].0 == rightChain[0].0)
               && (FoldedPrefix(fold, suffixL, suffixR) || FoldedPrefix(fold, suffixR, suffixL));
    if !overlap {
      ApartForever(fold, t, left, right, k, l, k - i);
    }
  }

  lemma MissingSide(fold: Name -> Name, t: Tree, p: Path, q: Path, k: nat, l: nat)
    requires Wellformed(fold, t) && Existing(t, p, k) && Existing(t, q, l) && (k < |p| || l < |q|)
    ensures Resolve(t, p).None? || Resolve(t, q).None?
  {
    assert p[..|p|] == p && q[..|q|] == q;
    if Resolve(t, p).Some? {
      DepthOfPath(fold, t, p);
    }
    if Resolve(t, q).Some? {
      DepthOfPath(fold, t, q);
    }
  }
}
