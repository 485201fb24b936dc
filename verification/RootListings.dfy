/** Listing the roots of a server that keeps serving requests: new roots come last and none is ever removed. */
module RootListings {
  import opened Directories
  import opened Ordering
  import opened ServerRuns
  import opened QueryCodec
  import opened PageLinks
  import opened RootPages

  lemma OrderedSnoc(f: Forest, s: seq<DirectoryID>, x: DirectoryID)
    requires Ordered(f, s) && x in f && forall y | y in Elements(s) :: f[y].createdAt < f[x].createdAt
    ensures Ordered(f, s + [x])
  {
    forall i | 0 <= i < |s|
      ensures f[s[i]].createdAt < f[x].createdAt
    {
      assert s[i] in Elements(s);
    }
  }

  /** A listing by creation time depends on creation times only. */
  lemma SameListing(f: Forest, g: Forest, s: set<DirectoryID>)
    requires WellFormed(f) && WellFormed(g) && Extends(f, g) && s <= f.Keys
    ensures s <= g.Keys && ByCreation(g, s) == ByCreation(f, s)
  {
    ByCreationElements(f, s);
    ByCreationElements(g, s);
    ByCreationOrdered(f, s);
    ByCreationOrdered(g, s);
    OrderedUnique(g, ByCreation(g, s), ByCreation(f, s));
  }

  lemma NewestComesLast(f: Forest, s: set<DirectoryID>, x: DirectoryID)
    requires WellFormed(f) && s <= f.Keys && x in f
    requires forall y | y in s :: f[y].createdAt < f[x].createdAt
    ensures s + {x} <= f.Keys && ByCreation(f, s + {x}) == ByCreation(f, s) + [x]
  {
    var list := ByCreation(f, s);
    ByCreationElements(f, s);
    ByCreationOrdered(f, s);
    OrderedSnoc(f, list, x);
    ElementsConcat(list, [x]);
    assert Elements(list + [x]) == s + {x};
    ListedByCreation(f, s + {x}, list + [x]);
  }

  /** A request for a new root puts it at the end of the listing; any other leaves the listing as it is. */
  lemma RequestGrowsRoots(f: Forest, l: Label, withDeleted: bool)
    requires Sound(f) && Enabled(f, l)
    ensures RootList(Stored(f, l), withDeleted) ==
              RootList(f, withDeleted) + if l.request.CreateRoot? then [l.request.id] else []
  {
    var g := Stored(f, l);
    StoredKeeps(f, l);
    if l.request.CreateRoot? {
      assert Roots(g, withDeleted) == Roots(f, withDeleted) + {l.request.id};
      SameListing(f, g, Roots(f, withDeleted));
      NewestComesLast(g, Roots(f, withDeleted), l.request.id);
    } else {
      SameRoots(f, l, withDeleted);
      SameListing(f, g, Roots(f, withDeleted));
    }
  }

  lemma SameRoots(f: Forest, l: Label, withDeleted: bool)
    requires Sound(f) && Enabled(f, l) && !l.request.CreateRoot?
    ensures Roots(Stored(f, l), withDeleted) == Roots(f, withDeleted)
  {
    var g := Stored(f, l);
    StoredKeeps(f, l);
    forall x
      ensures x in Roots(g, withDeleted) <==> x in Roots(f, withDeleted)
    {
      if x in f && f[x].parent.None? {
        assert Live(f, x) && Live(g, x);
      }
    }
  }

  lemma {:induction false} RunGrowsRoots(s: ServerState, labels: seq<Label>, withDeleted: bool)
    requires Sound(s.store) && AllEnabled(s.store, labels)
    ensures RootList(s.store, withDeleted) <= RootList(Run(s, labels).store, withDeleted)
    decreases |labels|
  {
    if labels != [] {
      StoredKeeps(s.store, labels[0]);
      RequestGrowsRoots(s.store, labels[0], withDeleted);
      RunGrowsRoots(Serve(s, labels[0]), labels[1..], withDeleted);
    }
  }

  lemma {:induction false} RootsGrowBetween(s: ServerState, labels: seq<Label>, i: nat, j: nat, withDeleted: bool)
    requires Sound(s.store) && i <= j <= |labels| && AllEnabled(s.store, labels)
    requires AllEnabled(s.store, labels[..i]) && AllEnabled(s.store, labels[..j])
    ensures RootList(Run(s, labels[..i]).store, withDeleted) <= RootList(Run(s, labels[..j]).store, withDeleted)
    decreases |labels|
  {
    if i == 0 {
      RunGrowsRoots(s, labels[..j], withDeleted);
    } else {
      StoredKeeps(s.store, labels[0]);
      assert labels[..i][0] == labels[..j][0] == labels[0];
      assert labels[..i][1..] == labels[1..][..i - 1] && labels[..j][1..] == labels[1..][..j - 1];
      RootsGrowBetween(Serve(s, labels[0]), labels[1..], i - 1, j - 1, withDeleted);
    }
  }

  /** `lists[i]` is the listing of roots after the first `served[i]` requests. */
  ghost predicate ListsRoots(labels: seq<Label>, served: seq<nat>, lists: seq<Listing>)
    requires AllEnabled(INITIAL.store, labels)
  {
    && |served| == |lists|
    && (forall i | 0 <= i < |served| :: served[i] <= |labels|)
    && (forall i, j | 0 <= i < j < |served| :: served[i] <= served[j])
    && (forall i, withDeleted: bool | 0 <= i < |lists| ::
          lists[i](withDeleted) == RootList(StoreAt(labels, served[i]), withDeleted))
  }

  lemma RootListingsGrow(labels: seq<Label>, served: seq<nat>, lists: seq<Listing>, withDeleted: bool)
    requires AllEnabled(INITIAL.store, labels) && ListsRoots(labels, served, lists)
    ensures Growing(lists, withDeleted)
  {
    forall i, j | 0 <= i < j < |lists|
      ensures lists[i](withDeleted) <= lists[j](withDeleted)
    {
      PrefixEnabled(INITIAL.store, labels, served[i]);
      PrefixEnabled(INITIAL.store, labels, served[j]);
      RootsGrowBetween(INITIAL, labels, served[i], served[j], withDeleted);
    }
  }

  /** Where no root is deleted, either listing holds all rows without a parent. */
  lemma LiveRootsListed(f: Forest, withDeleted: bool)
    requires Sound(f)
    ensures
      var rows := RootList(f, withDeleted);
      && (forall x :: x in rows <==> x in f && f[x].parent.None?)
      && (forall i, j | 0 <= i < j < |rows| :: f[rows[i]].createdAt < f[rows[j]].createdAt)
      && NoDuplicates(rows)
  {
    RootListMeaning(f, withDeleted);
    forall x | x in f && f[x].parent.None?
      ensures f[x].deletedAt.None?
    {
      assert Live(f, x);
    }
  }

  /**
   A client lists the roots by following the links while the server serves any requests in between: it receives
   exactly the roots at its last request, oldest first and each once.
   */
  lemma RootsListedDuringRun(labels: seq<Label>, served: seq<nat>, lists: seq<Listing>, queries: seq<Values>,
                             rows: seq<DirectoryID>)
    requires AllEnabled(INITIAL.store, labels) && ListsRoots(labels, served, lists)
    requires Session(ServerCodec(), lists, queries, rows) && ServerCodec().read(queries[0]).value.GetPage() == 1
    ensures
      var o := ServerCodec().read(queries[0]).value;
      && rows == RootList(StoreAt(labels, served[|served| - 1]), o.withDeleted)
      && NoDuplicates(rows)
      && |queries| == |rows| / o.GetPageSize() + 1
    ensures
      var f := StoreAt(labels, served[|served| - 1]);
      && (forall x :: x in rows <==> x in f && f[x].parent.None?)
      && (forall i, j | 0 <= i < j < |rows| :: f[rows[i]].createdAt < f[rows[j]].createdAt)
  {
    var o, f := ServerCodec().read(queries[0]).value, StoreAt(labels, served[|served| - 1]);
    assert rows == RootList(f, o.withDeleted) && |queries| == |rows| / o.GetPageSize() + 1 by {
      ServerCodecFaithful();
      RootListingsGrow(labels, served, lists, o.withDeleted);
      SessionCollectsAll(ServerCodec(), lists, queries, rows);
      assert lists[|lists| - 1](o.withDeleted) == RootList(f, o.withDeleted);
    }
    StoreAtKeeps(labels, served[|served| - 1]);
    LiveRootsListed(f, o.withDeleted);
  }
}
