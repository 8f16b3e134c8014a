/** The external merge sort behind an index build: sorted runs and their k-way merge. */
module Merging {
  ghost predicate SortedBy<T>(key: T -> nat, s: seq<T>) {
    forall i, j | 0 <= i < j < |s| :: key(s[i]) <= key(s[j])
  }

  ghost predicate StrictlyIncreasing(s: seq<nat>) {
    forall i, j | 0 <= i < j < |s| :: s[i] < s[j]
  }

  /** All records of all runs. */
  ghost function Contents<T>(runs: seq<seq<T>>): multiset<T> {
    if runs == [] then multiset{} else Contents(runs[..|runs| - 1]) + multiset(runs[|runs| - 1])
  }

  lemma {:induction false} ContentsPop<T>(runs: seq<seq<T>>, i: nat)
    requires i < |runs| && runs[i] != []
    ensures Contents(runs) == multiset{runs[i][0]} + Contents(runs[i := runs[i][1..]])
  {
    var m := |runs| - 1;
    var popped := runs[i := runs[i][1..]];
    assert runs[i] == [runs[i][0]] + runs[i][1..];
    if i == m {
      assert popped[..m] == runs[..m];
    } else {
      assert popped[..m] == runs[..m][i := runs[i][1..]];
      ContentsPop(runs[..m], i);
    }
  }

  lemma {:induction false} ContentsOfEmptyRuns<T>(runs: seq<seq<T>>)
    requires forall i :: 0 <= i < |runs| ==> runs[i] == []
    ensures Contents(runs) == multiset{}
  {
    if runs != [] {
      ContentsOfEmptyRuns(runs[..|runs| - 1]);
    }
  }

  function InsertionPoint<T>(key: T -> nat, x: T, s: seq<T>): (p: nat)
    requires SortedBy(key, s)
    ensures p <= |s|
    ensures forall i :: 0 <= i < p ==> key(s[i]) <= key(x)
    ensures forall i :: p <= i < |s| ==> key(x) < key(s[i])
  {
    if s == [] || key(s[|s| - 1]) <= key(x) then |s| else InsertionPoint(key, x, s[..|s| - 1])
  }

  function Insert<T>(key: T -> nat, x: T, s: seq<T>): (r: seq<T>)
    requires SortedBy(key, s)
    ensures SortedBy(key, r)
    ensures multiset(r) == multiset(s) + multiset{x}
  {
    var p := InsertionPoint(key, x, s);
    assert s == s[..p] + s[p..];
    s[..p] + [x] + s[p..]
  }

  /** Python's `sorted` on one bounded chunk. */
  method Sorted<T>(key: T -> nat, chunk: seq<T>) returns (s: seq<T>)
    ensures SortedBy(key, s)
    ensures multiset(s) == multiset(chunk)
  {
    s := [];
    for i := 0 to |chunk|
      invariant SortedBy(key, s)
      invariant multiset(s) == multiset(chunk[..i])
    {
      assert chunk[..i + 1] == chunk[..i] + [chunk[i]];
      s := Insert(key, chunk[i], s);
    }
    assert chunk[..|chunk|] == chunk;
  }

  /** The run whose next record comes first; ties go to the earlier run. */
  method LeastHead<T>(key: T -> nat, rest: seq<seq<T>>) returns (least: nat)
    ensures least <= |rest|
    ensures least == |rest| <==> forall i :: 0 <= i < |rest| ==> rest[i] == []
    ensures least < |rest| ==> rest[least] != []
                               && forall i :: 0 <= i < |rest| && rest[i] != [] ==>
                                    key(rest[least][0]) <= key(rest[i][0])
  {
    least := |rest|;
    for i := 0 to |rest|
      invariant least < i || least == |rest|
      invariant least == |rest| <==> forall k :: 0 <= k < i ==> rest[k] == []
      invariant least < |rest| ==> rest[least] != []
                                   && forall k :: 0 <= k < i && rest[k] != [] ==> key(rest[least][0]) <= key(rest[k][0])
    {
      if rest[i] != [] && (least == |rest| || key(rest[i][0]) < key(rest[least][0])) {
        least := i;
      }
    }
  }

  /** `out` is a sorted prefix of the merge and `rest` is what remains of the runs. */
  ghost predicate Merged<T>(key: T -> nat, runs: seq<seq<T>>, rest: seq<seq<T>>, out: seq<T>) {
    && (forall i :: 0 <= i < |rest| ==> SortedBy(key, rest[i]))
    && SortedBy(key, out)
    && (forall i :: 0 <= i < |rest| && rest[i] != [] && out != [] ==> key(out[|out| - 1]) <= key(rest[i][0]))
    && multiset(out) + Contents(rest) == Contents(runs)
  }

  lemma MergeStep<T>(key: T -> nat, runs: seq<seq<T>>, rest: seq<seq<T>>, out: seq<T>, least: nat)
    requires Merged(key, runs, rest, out)
    requires least < |rest| && rest[least] != []
    requires forall i :: 0 <= i < |rest| && rest[i] != [] ==> key(rest[least][0]) <= key(rest[i][0])
    ensures Merged(key, runs, rest[least := rest[least][1..]], out + [rest[least][0]])
    ensures |Contents(rest[least := rest[least][1..]])| < |Contents(rest)|
  {
    hide Contents;
    ContentsPop(rest, least);
    var popped, grown := rest[least := rest[least][1..]], out + [rest[least][0]];
    assert multiset(grown) == multiset(out) + multiset{rest[least][0]};
  }

  /** `heapq.merge`: repeatedly take the least head of the runs. */
  method Merge<T>(key: T -> nat, runs: seq<seq<T>>) returns (out: seq<T>)
    requires forall i :: 0 <= i < |runs| ==> SortedBy(key, runs[i])
    ensures SortedBy(key, out)
    ensures multiset(out) == Contents(runs)
  {
    out := [];
    var rest := runs;
    while true
      invariant Merged(key, runs, rest, out)
      decreases |Contents(rest)|
    {
      hide Contents;
      var least := LeastHead(key, rest);
      if least == |rest| {
        ContentsOfEmptyRuns(rest);
        break;
      }
      MergeStep(key, runs, rest, out, least);
      out := out + [rest[least][0]];
      rest := rest[least := rest[least][1..]];
    }
  }

  // ---- sorted enumerations of a set ----

  ghost function SortedKeys(s: set<nat>): (r: seq<nat>)
    ensures StrictlyIncreasing(r)
    ensures forall k :: k in r <==> k in s
    ensures |r| == |s|
  {
    if s == {} then [] else
      var top := Maximum(s);
      SortedKeys(s - {top}) + [top]
  }

  ghost function Maximum(s: set<nat>): (m: nat)
    requires s != {}
    ensures m in s && forall k :: k in s ==> k <= m
  {
    var x :| x in s;
    assert s == {x} + (s - {x});
    if s - {x} == {} then x else
      var y := Maximum(s - {x});
      if x < y then y else x
  }

  lemma {:induction false} SortedEnumerationIsUnique(a: seq<nat>, b: seq<nat>)
    requires StrictlyIncreasing(a) && StrictlyIncreasing(b)
    requires forall k :: k in a <==> k in b
    ensures a == b
  {
    assert b == [] || b[0] in a;
    if a != [] {
      assert a[|a| - 1] in b;
      var m, n := |a| - 1, |b| - 1;
      assert b[n] in a;
      assert a[m] == b[n];
      assert forall k :: k in a[..m] <==> k in a && k != a[m];
      assert forall k :: k in b[..n] <==> k in b && k != b[n];
      SortedEnumerationIsUnique(a[..m], b[..n]);
      assert a == a[..m] + [a[m]] && b == b[..n] + [b[n]];
    }
  }
}
