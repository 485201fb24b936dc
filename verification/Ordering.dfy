/** Listing directories by creation time. */
module Ordering {
  import opened Directories

  ghost predicate Ordered(f: Forest, s: seq<DirectoryID>) {
    && (forall i | 0 <= i < |s| :: s[i] in f)
    && (forall i, j | 0 <= i < j < |s| :: f[s[i]].createdAt < f[s[j]].createdAt)
  }

  ghost predicate NoDuplicates<T(!new)>(s: seq<T>) {
    forall i, j | 0 <= i < j < |s| :: s[i] != s[j]
  }

  ghost function Elements<T>(s: seq<T>): set<T> {
    set x | x in s
  }

  lemma {:induction false} OldestExists(f: Forest, s: set<DirectoryID>) returns (m: DirectoryID)
    requires s != {} && s <= f.Keys
    ensures m in s && forall y | y in s :: f[m].createdAt <= f[y].createdAt
  {
    m :| m in s;
    var rest := s - {m};
    if rest != {} {
      var n := OldestExists(f, rest);
      if f[n].createdAt < f[m].createdAt {
        m := n;
      }
      assert s == rest + {m} || m in rest;
    }
  }

  ghost predicate IsOldest(f: Forest, s: set<DirectoryID>, m: DirectoryID)
    requires s <= f.Keys
  {
    m in s && forall y | y in s :: f[m].createdAt <= f[y].createdAt
  }

  ghost function Oldest(f: Forest, s: set<DirectoryID>): (m: DirectoryID)
    requires s != {} && s <= f.Keys
    ensures IsOldest(f, s, m)
  {
    assert exists m :: IsOldest(f, s, m) by {
      var o := OldestExists(f, s);
      assert IsOldest(f, s, o);
    }
    var m :| IsOldest(f, s, m);
    m
  }

  /** The members of `s`, oldest first. */
  ghost function ByCreation(f: Forest, s: set<DirectoryID>): (r: seq<DirectoryID>)
    requires s <= f.Keys
    decreases s
  {
    if s == {} then [] else [Oldest(f, s)] + ByCreation(f, s - {Oldest(f, s)})
  }

  lemma {:induction false} ByCreationElements(f: Forest, s: set<DirectoryID>)
    requires s <= f.Keys
    ensures Elements(ByCreation(f, s)) == s && |ByCreation(f, s)| == |s|
    decreases s
  {
    if s != {} {
      var m := Oldest(f, s);
      ByCreationElements(f, s - {m});
      assert Elements(ByCreation(f, s)) == {m} + Elements(ByCreation(f, s - {m}));
    }
  }

  lemma OrderedCons(f: Forest, m: DirectoryID, rest: seq<DirectoryID>)
    requires m in f && Ordered(f, rest)
    requires forall x | x in Elements(rest) :: x in f && f[m].createdAt < f[x].createdAt
    ensures Ordered(f, [m] + rest)
  {
    forall j | 0 <= j < |rest|
      ensures f[m].createdAt < f[rest[j]].createdAt
    {
      assert rest[j] in Elements(rest);
    }
  }

  lemma {:induction false} ByCreationOrdered(f: Forest, s: set<DirectoryID>)
    requires WellFormed(f) && s <= f.Keys
    ensures Ordered(f, ByCreation(f, s))
    decreases s
  {
    if s != {} {
      var m := Oldest(f, s);
      var rest := ByCreation(f, s - {m});
      ByCreationOrdered(f, s - {m});
      ByCreationElements(f, s - {m});
      forall x | x in s - {m}
        ensures f[m].createdAt < f[x].createdAt
      {
        assert f[m].createdAt <= f[x].createdAt;
      }
      OrderedCons(f, m, rest);
    }
  }

  /** The visible descendants of `a`, oldest first. */
  ghost function DescendantList(f: Forest, withDeleted: bool, a: DirectoryID): (r: seq<DirectoryID>)
    requires WellFormed(f)
  {
    ByCreation(f, Descendants(f, withDeleted, a))
  }

  ghost function Roots(f: Forest, withDeleted: bool): set<DirectoryID> {
    set x | x in f && Visible(f, withDeleted, x) && f[x].parent.None?
  }

  /** The visible roots, oldest first. */
  ghost function RootList(f: Forest, withDeleted: bool): seq<DirectoryID> {
    ByCreation(f, Roots(f, withDeleted))
  }

  lemma OrderedHasNoDuplicates(f: Forest, s: seq<DirectoryID>)
    requires Ordered(f, s)
    ensures NoDuplicates(s)
  {
  }

  lemma FirstIsElement<T>(s: seq<T>)
    ensures s != [] ==> s[0] in Elements(s)
  {
  }

  /** There is only one way to list a set by creation time. */
  lemma {:induction false} OrderedUnique(f: Forest, a: seq<DirectoryID>, b: seq<DirectoryID>)
    requires Ordered(f, a) && Ordered(f, b) && Elements(a) == Elements(b)
    ensures a == b
  {
    if a == [] {
      FirstIsElement(b);
    } else {
      assert a[0] in Elements(b);
      assert b != [];
      assert b[0] in Elements(a);
      assert a[0] == b[0];
      assert Elements(a[1..]) == Elements(a) - {a[0]};
      assert Elements(b[1..]) == Elements(b) - {b[0]};
      OrderedUnique(f, a[1..], b[1..]);
      assert a == [a[0]] + a[1..] && b == [b[0]] + b[1..];
    }
  }

  lemma ListedByCreation(f: Forest, s: set<DirectoryID>, list: seq<DirectoryID>)
    requires WellFormed(f) && s <= f.Keys && Ordered(f, list) && Elements(list) == s
    ensures ByCreation(f, s) == list
  {
    ByCreationElements(f, s);
    ByCreationOrdered(f, s);
    OrderedUnique(f, ByCreation(f, s), list);
  }

  lemma NoDuplicatesConcat<T(!new)>(a: seq<T>, b: seq<T>)
    requires NoDuplicates(a) && NoDuplicates(b)
    requires Elements(a) !! Elements(b)
    ensures NoDuplicates(a + b)
  {
    forall i, j | 0 <= i < j < |a + b|
      ensures (a + b)[i] != (a + b)[j]
    {
      if i < |a| <= j {
        assert a[i] in Elements(a) && b[j - |a|] in Elements(b);
      }
    }
  }

  lemma ElementsConcat<T>(a: seq<T>, b: seq<T>)
    ensures Elements(a + b) == Elements(a) + Elements(b)
  {
  }

  lemma SplitLast<T>(s: seq<T>)
    requires s != []
    ensures s == s[..|s| - 1] + [s[|s| - 1]]
  {
  }

  lemma ElementsSnoc<T>(s: seq<T>)
    requires s != []
    ensures Elements(s) == Elements(s[..|s| - 1]) + {s[|s| - 1]}
  {
    assert s == s[..|s| - 1] + [s[|s| - 1]];
  }

  lemma {:induction false} NoDuplicatesCardinality<T(!new)>(s: seq<T>)
    requires NoDuplicates(s)
    ensures |Elements(s)| == |s|
  {
    if s != [] {
      var n := |s| - 1;
      NoDuplicatesCardinality(s[..n]);
      assert Elements(s) == Elements(s[..n]) + {s[n]};
    }
  }

  lemma {:induction false} SubsetCardinality<T>(a: set<T>, b: set<T>)
    requires a <= b
    ensures |a| <= |b|
  {
    if a != {} {
      var x :| x in a;
      SubsetCardinality(a - {x}, b - {x});
    }
  }

  /** Each listed directory's parent is in `roots` or listed before it. */
  ghost predicate ParentsFirst(f: Forest, roots: set<DirectoryID>, s: seq<DirectoryID>) {
    forall i | 0 <= i < |s| :: ParentBefore(f, roots, s[i], s[..i])
  }

  ghost predicate ParentBefore(f: Forest, roots: set<DirectoryID>, x: DirectoryID, before: seq<DirectoryID>) {
    x in f && f[x].parent.Some? && (f[x].parent.value in roots || f[x].parent.value in before)
  }

  lemma ParentsFirstConcat(f: Forest, roots: set<DirectoryID>, a: seq<DirectoryID>, b: seq<DirectoryID>)
    requires ParentsFirst(f, roots, a) && ParentsFirst(f, roots + Elements(a), b)
    ensures ParentsFirst(f, roots, a + b)
  {
    forall i | 0 <= i < |a + b|
      ensures ParentBefore(f, roots, (a + b)[i], (a + b)[..i])
    {
      if i < |a| {
        assert (a + b)[..i] == a[..i];
      } else {
        assert (a + b)[..i] == a + b[..i - |a|];
        assert ParentBefore(f, roots + Elements(a), b[i - |a|], b[..i - |a|]);
      }
    }
  }

  lemma ParentsFirstTail(f: Forest, roots: set<DirectoryID>, s: seq<DirectoryID>)
    requires ParentsFirst(f, roots, s) && s != []
    ensures ParentBefore(f, roots, s[0], []) && ParentsFirst(f, roots + {s[0]}, s[1..])
  {
    assert s[..0] == [];
    forall i | 0 <= i < |s| - 1
      ensures ParentBefore(f, roots + {s[0]}, s[1..][i], s[1..][..i])
    {
      assert ParentBefore(f, roots, s[i + 1], s[..i + 1]);
      assert s[..i + 1] == [s[0]] + s[1..][..i];
    }
  }

  lemma ParentsFirstPrefix(f: Forest, roots: set<DirectoryID>, s: seq<DirectoryID>, n: nat)
    requires ParentsFirst(f, roots, s) && n <= |s|
    ensures ParentsFirst(f, roots, s[..n])
  {
    forall i | 0 <= i < n
      ensures ParentBefore(f, roots, s[..n][i], s[..n][..i])
    {
      assert s[..n][..i] == s[..i];
      assert ParentBefore(f, roots, s[i], s[..i]);
    }
  }

  function IdsOf(ds: seq<Directory>): seq<DirectoryID> {
    seq(|ds|, i requires 0 <= i < |ds| => ds[i].id)
  }

  /** `ds` lists the rows of `f` whose ids are in `s`, each once. */
  ghost predicate Lists(f: Forest, ds: seq<Directory>, s: set<DirectoryID>) {
    && (forall d | d in ds :: d.id in s)
    && (forall d | d in ds :: d.id in f && f[d.id] == d)
    && (forall x | x in s :: x in f && f[x] in ds)
    && NoDuplicates(ds)
  }

  lemma ListsElements(f: Forest, ds: seq<Directory>, s: set<DirectoryID>)
    requires WellFormed(f) && Lists(f, ds, s)
    ensures Elements(IdsOf(ds)) == s && NoDuplicates(IdsOf(ds))
  {
    var ids := IdsOf(ds);
    forall x | x in s
      ensures x in ids
    {
      var k :| 0 <= k < |ds| && ds[k] == f[x];
      assert ids[k] == x;
    }
    forall x | x in ids
      ensures x in s
    {
      var k :| 0 <= k < |ids| && ids[k] == x;
      assert ds[k] in ds;
    }
    forall i, j | 0 <= i < j < |ids|
      ensures ids[i] != ids[j]
    {
      assert ds[i] in ds && ds[j] in ds;
    }
  }

  lemma ListsCardinality(f: Forest, ds: seq<Directory>, s: set<DirectoryID>)
    requires WellFormed(f) && Lists(f, ds, s)
    ensures |ds| == |s|
  {
    ListsElements(f, ds, s);
    NoDuplicatesCardinality(IdsOf(ds));
  }

  lemma ListsOneMore(f: Forest, ds: seq<Directory>, s: set<DirectoryID>, x: DirectoryID)
    requires WellFormed(f) && Lists(f, ds, s) && x in f && x !in s
    ensures Lists(f, ds + [f[x]], s + {x})
  {
    assert forall d | d in ds + [f[x]] :: d in ds || d == f[x];
    assert f[x] !in ds;
  }
}
