/**
 The two drivers answer the tree queries alike. The in-memory answers are stated by `DescendantList`,
 `Ancestors` and `ChainUntil(f, true, ..)` under the swaps of its sort, the CockroachDB ones by `LevelList`,
 `Chain` and `ChainUntil`.
 */
module DriverAgreement {
  import opened Directories
  import opened Ordering
  import opened Storage
  import opened CreationSort
  import opened ParentWalk
  import opened RecursiveQuery
  import opened CrdbDriver
  import Lifecycle

  lemma SameElementsSameMultiset<T(!new)>(a: seq<T>, b: seq<T>)
    requires NoDuplicates(a) && NoDuplicates(b) && Elements(a) == Elements(b)
    ensures multiset(a) == multiset(b)
  {
    forall x
      ensures multiset(a)[x] == multiset(b)[x]
    {
      CountOnce(a, x);
      CountOnce(b, x);
      assert x in a <==> x in Elements(a);
      assert x in b <==> x in Elements(b);
      assert x in a <==> x in multiset(a);
      assert x in b <==> x in multiset(b);
    }
  }

  /** The level-by-level query and the worklist list the same directories, each once. */
  lemma ChildrenAgree(f: Forest, withDeleted: bool, a: DirectoryID)
    requires WellFormed(f) && Visible(f, withDeleted, a)
    ensures Elements(LevelList(f, withDeleted, a)) == Descendants(f, withDeleted, a)
    ensures Elements(DescendantList(f, withDeleted, a)) == Descendants(f, withDeleted, a)
    ensures NoDuplicates(LevelList(f, withDeleted, a)) && NoDuplicates(DescendantList(f, withDeleted, a))
    ensures multiset(LevelList(f, withDeleted, a)) == multiset(DescendantList(f, withDeleted, a))
  {
    ChildrenResult(f, withDeleted, a);
    RowsAreNew(f, Children(withDeleted), {a}, {a});
    ByCreationElements(f, Descendants(f, withDeleted, a));
    ByCreationOrdered(f, Descendants(f, withDeleted, a));
    OrderedHasNoDuplicates(f, DescendantList(f, withDeleted, a));
    SameElementsSameMultiset(LevelList(f, withDeleted, a), DescendantList(f, withDeleted, a));
  }

  /** On a page that holds the whole list, both drivers return the same directories. */
  lemma ChildrenPagesAgree(f: Forest, a: DirectoryID, o: Options)
    requires WellFormed(f) && Visible(f, o.withDeleted, a)
    requires o.GetPage() == 1 && |Descendants(f, o.withDeleted, a)| <= o.GetPageSize()
    ensures multiset(PageOf(LevelList(f, o.withDeleted, a), o)) ==
            multiset(PageOf(DescendantList(f, o.withDeleted, a), o))
    ensures Elements(PageOf(LevelList(f, o.withDeleted, a), o)) == Descendants(f, o.withDeleted, a)
  {
    ChildrenAgree(f, o.withDeleted, a);
    NoDuplicatesCardinality(LevelList(f, o.withDeleted, a));
    NoDuplicatesCardinality(DescendantList(f, o.withDeleted, a));
    WholePage(LevelList(f, o.withDeleted, a), o);
    WholePage(DescendantList(f, o.withDeleted, a), o);
  }

  /** The in-memory walk succeeds exactly when the query's chain is not cut short by a hidden ancestor. */
  lemma {:induction false} ParentsAgree(f: Forest, withDeleted: bool, x: DirectoryID)
    requires WellFormed(f) && Visible(f, withDeleted, x)
    ensures WalkVisible(f, withDeleted, x) <==> Chain(f, withDeleted, x) == Ancestors(f, x)
    decreases f[x].createdAt
  {
    ChainIsOlder(f, withDeleted, x);
    if f[x].parent.Some? {
      assert ParentIsOlder(f, x);
      var p := f[x].parent.value;
      assert Ancestors(f, x) == [p] + Ancestors(f, p);
      if Visible(f, withDeleted, p) {
        ParentsAgree(f, withDeleted, p);
        assert Chain(f, withDeleted, x) == [p] + Chain(f, withDeleted, p);
        assert Chain(f, withDeleted, x)[1..] == Chain(f, withDeleted, p);
        assert Ancestors(f, x)[1..] == Ancestors(f, p);
        assert forall y | y in Ancestors(f, p) :: y in Ancestors(f, x);
        assert forall y | y in Ancestors(f, x) :: y == p || y in Ancestors(f, p);
      } else {
        assert p in Ancestors(f, x);
        assert Chain(f, withDeleted, x) == [];
      }
    }
  }

  /** Under live closure a visible directory has a visible chain, so both drivers return it, up to the sort's swaps. */
  lemma ParentsAgreeUnderClosure(f: Forest, withDeleted: bool, x: DirectoryID, swaps: seq<(nat, nat)>)
    requires WellFormed(f) && LiveClosure(f) && Visible(f, withDeleted, x)
    ensures WalkVisible(f, withDeleted, x)
    ensures Chain(f, withDeleted, x) == Ancestors(f, x) && NoDuplicates(Ancestors(f, x))
    ensures multiset(ApplySwaps(Ancestors(f, x), swaps)) == multiset(Chain(f, withDeleted, x))
  {
    ChainIsOlder(f, true, x);
    if !withDeleted {
      LiveAncestors(f, x);
    }
    ApplySwapsPermutes(Ancestors(f, x), swaps);
  }

  lemma {:induction false} ChainUntilReaches(f: Forest, withDeleted: bool, x: DirectoryID, a: DirectoryID)
    requires WellFormed(f) && Visible(f, withDeleted, x) && x != a
    ensures a in ChainUntil(f, withDeleted, x, a) <==> Under(f, withDeleted, a, x) && Visible(f, withDeleted, a)
    ensures Under(f, withDeleted, a, x) && Visible(f, withDeleted, a) ==>
              ChainUntil(f, withDeleted, x, a) == ChainUntil(f, true, x, a)
    decreases f[x].createdAt
  {
    if f[x].parent.Some? {
      assert ParentIsOlder(f, x);
      var p := f[x].parent.value;
      if p == a {
        assert ChainUntil(f, true, a, a) == [] && ChainUntil(f, withDeleted, a, a) == [];
      } else if Visible(f, withDeleted, p) {
        ChainUntilReaches(f, withDeleted, p, a);
      }
    }
  }

  /**
   For two visible directories the in-memory parents-until succeeds exactly when the query's answer
   contains the ancestor, and then both list the same chain.
   */
  lemma ParentsUntilAgree(f: Forest, withDeleted: bool, x: DirectoryID, a: DirectoryID, swaps: seq<(nat, nat)>)
    requires WellFormed(f) && Visible(f, withDeleted, x) && Visible(f, withDeleted, a) && x != a
    ensures Under(f, withDeleted, a, x) <==> a in ChainUntil(f, withDeleted, x, a)
    ensures Under(f, withDeleted, a, x) ==>
              multiset(ApplySwaps(ChainUntil(f, true, x, a), swaps)) == multiset(ChainUntil(f, withDeleted, x, a))
  {
    ChainUntilReaches(f, withDeleted, x, a);
    ApplySwapsPermutes(ChainUntil(f, true, x, a), swaps);
  }

  /** Under live closure every proper ancestor of a live directory is reached by both. */
  lemma ParentsUntilAgreeUnderClosure(f: Forest, withDeleted: bool, x: DirectoryID, a: DirectoryID)
    requires WellFormed(f) && LiveClosure(f) && Visible(f, withDeleted, x) && Under(f, true, a, x)
    ensures Visible(f, withDeleted, a) && Under(f, withDeleted, a, x)
    ensures ChainUntil(f, withDeleted, x, a) == ChainUntil(f, true, x, a)
    ensures a in ChainUntil(f, withDeleted, x, a)
  {
    UnderIsYounger(f, true, a, x);
    ChainIffUnder(f, true, x, a);
    if !withDeleted {
      LiveUnder(f, a, x);
      LiveAncestors(f, x);
    }
    ChainUntilReaches(f, withDeleted, x, a);
  }

  /** If `a` is no ancestor, the query answers with the whole visible chain while the in-memory walk fails. */
  lemma {:induction false} ParentsUntilOfNonAncestor(f: Forest, withDeleted: bool, x: DirectoryID, a: DirectoryID)
    requires WellFormed(f) && Visible(f, withDeleted, x) && x != a && !Under(f, true, a, x)
    ensures ChainUntil(f, withDeleted, x, a) == Chain(f, withDeleted, x)
    ensures !Under(f, withDeleted, a, x)
    decreases f[x].createdAt
  {
    if f[x].parent.Some? {
      assert ParentIsOlder(f, x);
      var p := f[x].parent.value;
      if Visible(f, withDeleted, p) {
        ParentsUntilOfNonAncestor(f, withDeleted, p, a);
      }
    }
  }

  /** `x` is among the children of `y` exactly when `y` is among the parents of `x`. */
  lemma Duality(f: Forest, withDeleted: bool, x: DirectoryID, y: DirectoryID)
    requires WellFormed(f) && Visible(f, withDeleted, x) && Visible(f, withDeleted, y)
    ensures x in LevelList(f, withDeleted, y) <==> y in Chain(f, withDeleted, x)
    ensures x in DescendantList(f, withDeleted, y) <==> y in Chain(f, withDeleted, x)
  {
    ChildrenAgree(f, withDeleted, y);
    ChainIffUnder(f, withDeleted, x, y);
    assert x in Elements(LevelList(f, withDeleted, y)) <==> x in LevelList(f, withDeleted, y);
    assert x in Elements(DescendantList(f, withDeleted, y)) <==> x in DescendantList(f, withDeleted, y);
  }

  /** Duality of the pages the in-memory driver returns, whatever swaps its sort makes. */
  lemma MemoryDuality(f: Forest, x: DirectoryID, y: DirectoryID, swaps: seq<(nat, nat)>, o: Options)
    requires WellFormed(f) && LiveClosure(f) && Visible(f, o.withDeleted, x) && Visible(f, o.withDeleted, y)
    requires o.GetPage() == 1 && |f| <= o.GetPageSize()
    ensures WalkVisible(f, o.withDeleted, x)
    ensures x in PageOf(DescendantList(f, o.withDeleted, y), o) <==> y in PageOf(ApplySwaps(Ancestors(f, x), swaps), o)
  {
    var below := DescendantList(f, o.withDeleted, y);
    var above := ApplySwaps(Ancestors(f, x), swaps);
    ParentsAgreeUnderClosure(f, o.withDeleted, x, swaps);
    ApplySwapsPermutes(Ancestors(f, x), swaps);
    Duality(f, o.withDeleted, x, y);
    ByCreationElements(f, Descendants(f, o.withDeleted, y));
    SubsetCardinality(Descendants(f, o.withDeleted, y), f.Keys);
    ChainIsOlder(f, true, x);
    NoDuplicatesCardinality(Ancestors(f, x));
    SubsetCardinality(Elements(Ancestors(f, x)), f.Keys);
    WholePage(below, o);
    WholePage(above, o);
    assert y in above <==> y in multiset(above);
    assert y in Ancestors(f, x) <==> y in multiset(Ancestors(f, x));
  }

  /**
   In memory the parents split at any of them as multisets when the whole chain is visible (in order in CockroachDB:
   `ChainSplits`).
   */
  lemma MemoryParentsSplit(f: Forest, withDeleted: bool, c: DirectoryID, a: DirectoryID,
                           whole: seq<(nat, nat)>, until: seq<(nat, nat)>, above: seq<(nat, nat)>)
    requires WellFormed(f) && WalkVisible(f, withDeleted, c) && a in Ancestors(f, c)
    ensures WalkVisible(f, withDeleted, a) && Under(f, withDeleted, a, c)
    ensures multiset(ApplySwaps(Ancestors(f, c), whole))
         == multiset(ApplySwaps(ChainUntil(f, true, c, a), until)) + multiset(ApplySwaps(Ancestors(f, a), above))
  {
    ChainSplits(f, true, c, a);
    ParentsAgree(f, withDeleted, c);
    ChainIffUnder(f, withDeleted, c, a);
    ApplySwapsPermutes(Ancestors(f, c), whole);
    ApplySwapsPermutes(ChainUntil(f, true, c, a), until);
    ApplySwapsPermutes(Ancestors(f, a), above);
  }

  /** Every prefix of either children list, and so every first page, holds the parents of its members. */
  lemma ChildrenListsParentsFirst(f: Forest, withDeleted: bool, a: DirectoryID, n: nat)
    requires WellFormed(f)
    ensures n <= |LevelList(f, withDeleted, a)| ==> ParentsFirst(f, {a}, LevelList(f, withDeleted, a)[..n])
    ensures n <= |DescendantList(f, withDeleted, a)| ==> ParentsFirst(f, {a}, DescendantList(f, withDeleted, a)[..n])
  {
    ChildrenRowsParentsFirst(f, withDeleted, {a}, {a});
    Lifecycle.DescendantListParentsFirst(f, withDeleted, a);
    if n <= |LevelList(f, withDeleted, a)| {
      ParentsFirstPrefix(f, {a}, LevelList(f, withDeleted, a), n);
    }
    if n <= |DescendantList(f, withDeleted, a)| {
      ParentsFirstPrefix(f, {a}, DescendantList(f, withDeleted, a), n);
    }
  }

  /** The first page of either children list is a prefix, so it too lists parents first. */
  lemma FirstPageParentsFirst(f: Forest, a: DirectoryID, o: Options)
    requires WellFormed(f) && o.GetPage() == 1
    ensures ParentsFirst(f, {a}, PageOf(LevelList(f, o.withDeleted, a), o))
    ensures ParentsFirst(f, {a}, PageOf(DescendantList(f, o.withDeleted, a), o))
  {
    assert o.GetPageOffset() == 0;
    ChildrenListsParentsFirst(f, o.withDeleted, a, Min(o.GetPageSize(), |LevelList(f, o.withDeleted, a)|));
    ChildrenListsParentsFirst(f, o.withDeleted, a, Min(o.GetPageSize(), |DescendantList(f, o.withDeleted, a)|));
  }
}
