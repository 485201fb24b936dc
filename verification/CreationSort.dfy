/** `sort.Slice` as the in-memory driver uses it. */
module CreationSort {
  import opened Directories
  import opened Ordering

  /** A swap of two positions, as `sort.Slice` performs it. */
  function Swapped<T>(s: seq<T>, i: nat, j: nat): seq<T> {
    if i < |s| && j < |s| then s[i := s[j]][j := s[i]] else s
  }

  function ApplySwaps<T>(s: seq<T>, swaps: seq<(nat, nat)>): seq<T>
    decreases |swaps|
  {
    if swaps == [] then s else ApplySwaps(Swapped(s, swaps[0].0, swaps[0].1), swaps[1..])
  }

  /** Whatever swaps are made, no element is lost or repeated. */
  lemma {:induction false} ApplySwapsPermutes<T>(s: seq<T>, swaps: seq<(nat, nat)>)
    ensures multiset(ApplySwaps(s, swaps)) == multiset(s)
    ensures |ApplySwaps(s, swaps)| == |s|
    decreases |swaps|
  {
    if swaps != [] {
      ApplySwapsPermutes(Swapped(s, swaps[0].0, swaps[0].1), swaps[1..]);
    }
  }

  function CreationTimes(ds: seq<Directory>): seq<Time> {
    seq(|ds|, i requires 0 <= i < |ds| => ds[i].createdAt)
  }

  ghost predicate SortedByCreation(ds: seq<Directory>) {
    forall i, j | 0 <= i < j < |ds| :: ds[i].createdAt <= ds[j].createdAt
  }

  function InsertByCreation(d: Directory, ds: seq<Directory>): seq<Directory> {
    if ds == [] || d.createdAt <= ds[0].createdAt then [d] + ds
    else [ds[0]] + InsertByCreation(d, ds[1..])
  }

  lemma {:induction false} InsertPermutes(d: Directory, ds: seq<Directory>)
    ensures multiset(InsertByCreation(d, ds)) == multiset{d} + multiset(ds)
  {
    if !(ds == [] || d.createdAt <= ds[0].createdAt) {
      InsertPermutes(d, ds[1..]);
      assert ds == [ds[0]] + ds[1..];
    }
  }

  lemma {:induction false} InsertSorts(d: Directory, ds: seq<Directory>)
    requires SortedByCreation(ds)
    ensures SortedByCreation(InsertByCreation(d, ds))
  {
    if !(ds == [] || d.createdAt <= ds[0].createdAt) {
      InsertSorts(d, ds[1..]);
      InsertAfter(ds[0].createdAt, d, ds[1..]);
    }
  }

  lemma InsertAfter(t: Time, d: Directory, ds: seq<Directory>)
    requires t <= d.createdAt && forall e | e in ds :: t <= e.createdAt
    ensures forall e | e in InsertByCreation(d, ds) :: t <= e.createdAt
  {
    InsertPermutes(d, ds);
    forall e | e in InsertByCreation(d, ds)
      ensures t <= e.createdAt
    {
      assert e in multiset(InsertByCreation(d, ds));
    }
  }

  function SortByCreation(ds: seq<Directory>): seq<Directory> {
    if ds == [] then [] else InsertByCreation(ds[0], SortByCreation(ds[1..]))
  }

  /** `sort.Slice` with the creation-time comparator: a sorted permutation. */
  lemma {:induction false} SortContract(ds: seq<Directory>)
    ensures SortedByCreation(SortByCreation(ds))
    ensures multiset(SortByCreation(ds)) == multiset(ds)
    ensures |SortByCreation(ds)| == |ds|
  {
    if ds != [] {
      SortContract(ds[1..]);
      InsertSorts(ds[0], SortByCreation(ds[1..]));
      InsertPermutes(ds[0], SortByCreation(ds[1..]));
      assert ds == [ds[0]] + ds[1..];
    }
    assert |multiset(SortByCreation(ds))| == |multiset(ds)|;
  }

  lemma PermutationLists(f: Forest, ds: seq<Directory>, r: seq<Directory>, s: set<DirectoryID>)
    requires Lists(f, ds, s) && multiset(ds) == multiset(r)
    ensures Lists(f, r, s)
  {
    PermutationHasNoDuplicates(ds, r);
    assert forall d :: d in r <==> d in multiset(r);
    assert forall d :: d in ds <==> d in multiset(ds);
  }

  lemma SortListsByCreation(f: Forest, ds: seq<Directory>, s: set<DirectoryID>)
    requires WellFormed(f) && Lists(f, ds, s)
    ensures s <= f.Keys && IdsOf(SortByCreation(ds)) == ByCreation(f, s)
  {
    var r := SortByCreation(ds);
    SortContract(ds);
    PermutationLists(f, ds, r, s);
    ListsElements(f, r, s);
    var ids := IdsOf(r);
    forall i, j | 0 <= i < j < |ids|
      ensures f[ids[i]].createdAt < f[ids[j]].createdAt
    {
      assert r[i] in r && r[j] in r && r[i] != r[j];
    }
    assert forall i | 0 <= i < |ids| :: ids[i] in Elements(ids);
    ByCreationElements(f, s);
    ByCreationOrdered(f, s);
    OrderedUnique(f, ids, ByCreation(f, s));
  }

  lemma PermutationHasNoDuplicates<T(!new)>(a: seq<T>, b: seq<T>)
    requires NoDuplicates(a) && multiset(a) == multiset(b)
    ensures NoDuplicates(b)
  {
    forall i, j | 0 <= i < j < |b|
      ensures b[i] != b[j]
    {
      if b[i] == b[j] {
        CountTwice(b, i, j);
        CountOnce(a, b[i]);
      }
    }
  }

  lemma CountTwice<T>(b: seq<T>, i: nat, j: nat)
    requires i < j < |b| && b[i] == b[j]
    ensures multiset(b)[b[i]] >= 2
  {
    assert b == b[..j] + [b[j]] + b[j + 1..];
    assert multiset(b) == multiset(b[..j]) + multiset{b[j]} + multiset(b[j + 1..]);
    assert b[..j][i] == b[i];
    assert b[i] in multiset(b[..j]);
  }

  lemma {:induction false} CountOnce<T(!new)>(a: seq<T>, x: T)
    requires NoDuplicates(a)
    ensures multiset(a)[x] <= 1
  {
    if a != [] {
      var n := |a| - 1;
      assert a == a[..n] + [a[n]];
      CountOnce(a[..n], x);
      if a[n] == x {
        assert x !in a[..n];
        assert x !in multiset(a[..n]);
      }
    }
  }
}
