/** The pages of the listing of roots, read off the rows alone. */
module RootPages {
  import opened Directories
  import opened Ordering
  import opened Storage

  /** The listing holds the roots, each once, oldest first; deleted ones only if asked for. */
  lemma RootListMeaning(f: Forest, withDeleted: bool)
    requires WellFormed(f)
    ensures
      var list := RootList(f, withDeleted);
      && (forall x :: x in list <==> x in f && f[x].parent.None? && (withDeleted || f[x].deletedAt.None?))
      && (forall i, j | 0 <= i < j < |list| :: f[list[i]].createdAt < f[list[j]].createdAt)
  {
    var list, roots := RootList(f, withDeleted), Roots(f, withDeleted);
    ByCreationElements(f, roots);
    ByCreationOrdered(f, roots);
    forall x
      ensures x in list <==> x in roots
    {
      assert x in list <==> x in Elements(list);
    }
  }

  /** The roots that a listing puts before `x`. */
  ghost function OlderRoots(f: Forest, withDeleted: bool, x: DirectoryID): set<DirectoryID>
    requires x in f
  {
    set y | y in f && f[y].parent.None? && (withDeleted || f[y].deletedAt.None?) && f[y].createdAt < f[x].createdAt
  }

  lemma OlderComesBefore(f: Forest, withDeleted: bool, i: nat, y: DirectoryID)
    requires WellFormed(f) && i < |RootList(f, withDeleted)| && RootList(f, withDeleted)[i] in f
    requires y in OlderRoots(f, withDeleted, RootList(f, withDeleted)[i])
    ensures y in RootList(f, withDeleted)[..i]
  {
    var list := RootList(f, withDeleted);
    RootListMeaning(f, withDeleted);
    var k :| 0 <= k < |list| && list[k] == y;
    assert k < i;
    assert list[..i][k] == y;
  }

  lemma BeforeIsOlder(f: Forest, withDeleted: bool, i: nat, k: nat)
    requires WellFormed(f) && k < i < |RootList(f, withDeleted)| && RootList(f, withDeleted)[i] in f
    ensures RootList(f, withDeleted)[k] in OlderRoots(f, withDeleted, RootList(f, withDeleted)[i])
  {
    RootListMeaning(f, withDeleted);
    assert RootList(f, withDeleted)[k] in RootList(f, withDeleted);
  }

  /** A root's position in the listing is the number of older ones. */
  lemma RootPosition(f: Forest, withDeleted: bool, i: nat)
    requires WellFormed(f) && i < |RootList(f, withDeleted)|
    ensures RootList(f, withDeleted)[i] in f
    ensures |OlderRoots(f, withDeleted, RootList(f, withDeleted)[i])| == i
  {
    var list := RootList(f, withDeleted);
    ByCreationOrdered(f, Roots(f, withDeleted));
    var older, before := OlderRoots(f, withDeleted, list[i]), list[..i];
    forall y | y in older
      ensures y in Elements(before)
    {
      OlderComesBefore(f, withDeleted, i, y);
    }
    forall y | y in Elements(before)
      ensures y in older
    {
      var k :| 0 <= k < |before| && before[k] == y;
      BeforeIsOlder(f, withDeleted, i, k);
    }
    assert older == Elements(before);
    OrderedHasNoDuplicates(f, list);
    NoDuplicatesCardinality(before);
  }

  /** A row without a double is on a page exactly when its position is. */
  lemma OnPage<T(!new)>(s: seq<T>, o: Options, k: nat)
    requires NoDuplicates(s) && k < |s|
    ensures s[k] in PageOf(s, o) <==> o.GetPageOffset() <= k < o.GetPageOffset() + o.GetPageSize()
  {
    var page, start := PageOf(s, o), o.GetPageOffset();
    if start <= k < start + o.GetPageSize() {
      assert page[k - start] == s[k];
    }
    if s[k] in page {
      var i :| 0 <= i < |page| && page[i] == s[k];
      assert page[i] == s[start + i];
    }
  }

  lemma PageHoldsRoot(f: Forest, o: Options, x: DirectoryID)
    requires WellFormed(f) && x in RootList(f, o.withDeleted)
    ensures x in f
    ensures x in PageOf(RootList(f, o.withDeleted), o) <==>
              o.GetPageOffset() <= |OlderRoots(f, o.withDeleted, x)| < o.GetPageOffset() + o.GetPageSize()
  {
    var list := RootList(f, o.withDeleted);
    var k :| 0 <= k < |list| && list[k] == x;
    ByCreationOrdered(f, Roots(f, o.withDeleted));
    OrderedHasNoDuplicates(f, list);
    RootPosition(f, o.withDeleted, k);
    OnPage(list, o, k);
  }

  /** A page holds, oldest first, the roots with so many older ones as there are rows before it, up to the next page. */
  lemma RootPageMeaning(f: Forest, o: Options)
    requires WellFormed(f)
    ensures
      var page := PageOf(RootList(f, o.withDeleted), o);
      && (forall x :: x in page <==>
            && x in f && f[x].parent.None? && (o.withDeleted || f[x].deletedAt.None?)
            && o.GetPageOffset() <= |OlderRoots(f, o.withDeleted, x)| < o.GetPageOffset() + o.GetPageSize())
      && (forall i, j | 0 <= i < j < |page| :: f[page[i]].createdAt < f[page[j]].createdAt)
  {
    var list, page := RootList(f, o.withDeleted), PageOf(RootList(f, o.withDeleted), o);
    RootListMeaning(f, o.withDeleted);
    forall x
      ensures x in page <==>
                && x in f && f[x].parent.None? && (o.withDeleted || f[x].deletedAt.None?)
                && o.GetPageOffset() <= |OlderRoots(f, o.withDeleted, x)| < o.GetPageOffset() + o.GetPageSize()
    {
      if x in list {
        PageHoldsRoot(f, o, x);
      }
    }
    PageInOrder(f, o);
  }

  lemma PageInOrder(f: Forest, o: Options)
    requires WellFormed(f)
    ensures
      var page := PageOf(RootList(f, o.withDeleted), o);
      forall i, j | 0 <= i < j < |page| :: page[i] in f && page[j] in f && f[page[i]].createdAt < f[page[j]].createdAt
  {
    ByCreationOrdered(f, Roots(f, o.withDeleted));
    PageOfMeaning(RootList(f, o.withDeleted), o);
  }
}
