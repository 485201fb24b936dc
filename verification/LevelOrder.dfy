/**
 The order of the two children lists. The recursive query lists a subtree level by level, the in-memory
 driver by creation time alone; the pages of the two agree exactly when these orders do.
 */
module LevelOrder {
  import opened Wrappers
  import opened Directories
  import opened Ordering
  import opened Storage
  import opened RecursiveQuery
  import opened CrdbDriver
  import opened DriverAgreement

  /** How many steps `x` lies below `a`. */
  ghost function Depth(f: Forest, a: DirectoryID, x: DirectoryID): nat
    requires WellFormed(f)
  {
    |ChainUntil(f, true, x, a)|
  }

  ghost predicate Before(f: Forest, a: DirectoryID, x: DirectoryID, y: DirectoryID)
    requires WellFormed(f) && x in f && y in f
  {
    Depth(f, a, x) < Depth(f, a, y) || (Depth(f, a, x) == Depth(f, a, y) && f[x].createdAt < f[y].createdAt)
  }

  /** Shallower directories come first, and within a level older ones. */
  ghost predicate Levelled(f: Forest, a: DirectoryID, s: seq<DirectoryID>)
    requires WellFormed(f)
  {
    && (forall i | 0 <= i < |s| :: s[i] in f)
    && (forall i, j | 0 <= i < j < |s| :: Before(f, a, s[i], s[j]))
  }

  /** Every deeper descendant is younger than every shallower one. */
  ghost predicate DeeperIsYounger(f: Forest, withDeleted: bool, a: DirectoryID)
    requires WellFormed(f)
  {
    forall x, y | Under(f, withDeleted, a, x) && Under(f, withDeleted, a, y) && Depth(f, a, x) < Depth(f, a, y) ::
      f[x].createdAt < f[y].createdAt
  }

  lemma BatchDepth(f: Forest, withDeleted: bool, a: DirectoryID, working: set<DirectoryID>, seen: set<DirectoryID>,
                   n: nat)
    requires WellFormed(f) && a in seen && forall g | g in working :: Depth(f, a, g) == n
    ensures forall x | x in Batch(f, Children(withDeleted), working, seen) :: Depth(f, a, x) == n + 1
  {
    forall x | x in Batch(f, Children(withDeleted), working, seen)
      ensures Depth(f, a, x) == n + 1
    {
      assert ParentIsOlder(f, x);
    }
  }

  lemma {:induction false} RowsLevelled(f: Forest, withDeleted: bool, a: DirectoryID,
                                        working: set<DirectoryID>, seen: set<DirectoryID>, n: nat)
    requires WellFormed(f) && a in seen && forall g | g in working :: Depth(f, a, g) == n
    ensures Levelled(f, a, Rows(f, Children(withDeleted), working, seen))
    ensures forall x | x in Elements(Rows(f, Children(withDeleted), working, seen)) :: Depth(f, a, x) > n
    decreases f.Keys - seen
  {
    var batch, head, tail := RowsUnfold(f, Children(withDeleted), working, seen);
    BatchDepth(f, withDeleted, a, working, seen, n);
    if batch != {} {
      RowsLevelled(f, withDeleted, a, batch, seen + batch, n + 1);
      LevelledConcat(f, a, head, tail, n + 1);
    }
  }

  lemma LevelledConcat(f: Forest, a: DirectoryID, head: seq<DirectoryID>, tail: seq<DirectoryID>, n: nat)
    requires WellFormed(f) && Ordered(f, head) && Levelled(f, a, tail)
    requires forall x | x in Elements(head) :: Depth(f, a, x) == n
    requires forall x | x in Elements(tail) :: Depth(f, a, x) > n
    ensures Levelled(f, a, head + tail)
  {
    var s := head + tail;
    forall i, j | 0 <= i < j < |s|
      ensures Before(f, a, s[i], s[j])
    {
      if i < |head| {
        assert s[i] in Elements(head);
        assert s[j] in if j < |head| then Elements(head) else Elements(tail);
      } else {
        assert s[i] == tail[i - |head|] && s[j] == tail[j - |head|];
      }
    }
  }

  /** The query's list is sorted by depth and then by creation time. */
  lemma LevelListLevelled(f: Forest, withDeleted: bool, a: DirectoryID)
    requires WellFormed(f)
    ensures Levelled(f, a, LevelList(f, withDeleted, a))
  {
    assert ChainUntil(f, true, a, a) == [];
    RowsLevelled(f, withDeleted, a, {a}, {a}, 0);
  }

  /** The two lists are the same exactly when every deeper descendant is younger than every shallower one. */
  lemma ListsAgree(f: Forest, withDeleted: bool, a: DirectoryID)
    requires WellFormed(f) && Visible(f, withDeleted, a)
    ensures LevelList(f, withDeleted, a) == DescendantList(f, withDeleted, a) <==> DeeperIsYounger(f, withDeleted, a)
  {
    var level, byAge := LevelList(f, withDeleted, a), DescendantList(f, withDeleted, a);
    ChildrenAgree(f, withDeleted, a);
    LevelListLevelled(f, withDeleted, a);
    ByCreationOrdered(f, Descendants(f, withDeleted, a));
    if level == byAge {
      SameOrder(f, withDeleted, a);
    }
    if DeeperIsYounger(f, withDeleted, a) {
      forall i, j | 0 <= i < j < |level|
        ensures f[level[i]].createdAt < f[level[j]].createdAt
      {
        assert level[i] in Elements(level) && level[j] in Elements(level);
        assert Before(f, a, level[i], level[j]);
      }
      OrderedUnique(f, level, byAge);
    }
  }

  lemma SameOrder(f: Forest, withDeleted: bool, a: DirectoryID)
    requires WellFormed(f) && Visible(f, withDeleted, a) && Ordered(f, LevelList(f, withDeleted, a))
    ensures DeeperIsYounger(f, withDeleted, a)
  {
    var level := LevelList(f, withDeleted, a);
    ChildrenAgree(f, withDeleted, a);
    LevelListLevelled(f, withDeleted, a);
    forall x, y | Under(f, withDeleted, a, x) && Under(f, withDeleted, a, y) && Depth(f, a, x) < Depth(f, a, y)
      ensures f[x].createdAt < f[y].createdAt
    {
      assert x in Elements(level) && y in Elements(level);
      var i :| 0 <= i < |level| && level[i] == x;
      var j :| 0 <= j < |level| && level[j] == y;
      assert j < i ==> Before(f, a, level[j], level[i]);
    }
  }

  /** Every page of either list, of whatever size, holds the same directories. */
  ghost predicate SamePages<T(!new)>(s: seq<T>, t: seq<T>, withDeleted: bool) {
    forall o: Options | o.withDeleted == withDeleted :: multiset(PageOf(s, o)) == multiset(PageOf(t, o))
  }

  function EntryAt<T>(s: seq<T>, i: nat): seq<T> {
    if i < |s| then [s[i]] else []
  }

  lemma SinglePage<T>(s: seq<T>, withDeleted: bool, i: nat)
    ensures PageOf(s, Options(withDeleted, i + 1, 1)) == EntryAt(s, i)
  {
    assert Options(withDeleted, i + 1, 1).GetPageOffset() == i;
  }

  lemma SamePagesIffSameLists<T(!new)>(s: seq<T>, t: seq<T>, withDeleted: bool)
    ensures SamePages(s, t, withDeleted) <==> s == t
  {
    if SamePages(s, t, withDeleted) {
      forall i: nat
        ensures EntryAt(s, i) == EntryAt(t, i)
      {
        var o := Options(withDeleted, i + 1, 1);
        SinglePage(s, withDeleted, i);
        SinglePage(t, withDeleted, i);
        assert multiset(PageOf(s, o)) == multiset(PageOf(t, o));
        SameSingletons(PageOf(s, o), PageOf(t, o));
      }
      assert EntryAt(s, |s|) == EntryAt(t, |s|) && EntryAt(s, |t|) == EntryAt(t, |t|);
      forall i: nat | i < |s|
        ensures s[i] == t[i]
      {
        assert EntryAt(s, i) == EntryAt(t, i);
      }
    }
  }

  lemma SameSingletons<T>(s: seq<T>, t: seq<T>)
    requires |s| <= 1 && |t| <= 1 && multiset(s) == multiset(t)
    ensures s == t
  {
    assert |multiset(s)| == |multiset(t)|;
    if |s| == 1 {
      assert s == [s[0]] && t == [t[0]];
      assert s[0] in multiset(t);
    }
  }

  /**
   The drivers return the same directories on every page, as sets or in order, exactly when every deeper
   descendant is younger than every shallower one.
   */
  lemma AllPagesAgree(f: Forest, withDeleted: bool, a: DirectoryID)
    requires WellFormed(f) && Visible(f, withDeleted, a)
    ensures SamePages(LevelList(f, withDeleted, a), DescendantList(f, withDeleted, a), withDeleted)
       <==> DeeperIsYounger(f, withDeleted, a)
  {
    ListsAgree(f, withDeleted, a);
    SamePagesIffSameLists(LevelList(f, withDeleted, a), DescendantList(f, withDeleted, a), withDeleted);
  }

  function Node(x: DirectoryID, parent: Option<DirectoryID>): Directory {
    Directory(x, "", map[], parent, x + 1, x + 1, None)
  }

  /** A root 0, its child 1, children 2 and 4 of 1, and a child 3 of 2 that is older than 4. */
  function Uneven(): Forest {
    map[0 := Node(0, None), 1 := Node(1, Some(0)), 2 := Node(2, Some(1)), 3 := Node(3, Some(2)), 4 := Node(4, Some(1))]
  }

  ghost predicate IsUneven(f: Forest) {
    && f.Keys == {0, 1, 2, 3, 4}
    && (forall x | x in f :: f[x] == Node(x, f[x].parent))
    && f[0].parent == None && f[1].parent == Some(0) && f[2].parent == f[4].parent == Some(1) && f[3].parent == Some(2)
  }

  lemma UnevenShape(f: Forest)
    requires IsUneven(f)
    ensures WellFormed(f) && LiveClosure(f) && RootsLive(f)
  {
    assert forall x | x in f && f[x].parent.Some? :: ParentIsOlder(f, x);
  }

  lemma UnevenBelow(f: Forest)
    requires IsUneven(f) && WellFormed(f)
    ensures Descendants(f, false, 1) == {2, 3, 4}
  {
    assert !Under(f, false, 1, 0) && !Under(f, false, 1, 1);
    assert ParentIsOlder(f, 3);
    assert Under(f, false, 1, 2) && Under(f, false, 1, 3) && Under(f, false, 1, 4);
  }

  lemma UnevenBatches(f: Forest)
    requires IsUneven(f) && WellFormed(f)
    ensures Batch(f, Children(false), {1}, {1}) == {2, 4}
    ensures Batch(f, Children(false), {2, 4}, {1, 2, 4}) == {3}
    ensures Batch(f, Children(false), {3}, {1, 2, 4, 3}) == {}
  {
    var q := Children(false);
    assert Joins(f, q, 1, 2) && Joins(f, q, 1, 4) && Joins(f, q, 2, 3);
    assert 1 in {1} && 2 in {2, 4};
    assert Joined(f, q, {1}, 2) && Joined(f, q, {1}, 4) && Joined(f, q, {2, 4}, 3);
  }

  /** A subtree of two levels is listed as the first and then the second. */
  lemma TwoLevels(f: Forest, a: DirectoryID, first: set<DirectoryID>, second: set<DirectoryID>)
    requires WellFormed(f) && first != {} && second != {}
    requires Batch(f, Children(false), {a}, {a}) == first
    requires Batch(f, Children(false), first, {a} + first) == second
    requires Batch(f, Children(false), second, {a} + first + second) == {}
    ensures first <= f.Keys && second <= f.Keys
    ensures LevelList(f, false, a) == ByCreation(f, first) + ByCreation(f, second)
  {
    var _, _, belowFirst := RowsUnfold(f, Children(false), {a}, {a});
    var _, _, belowSecond := RowsUnfold(f, Children(false), first, {a} + first);
    var _, _, _ := RowsUnfold(f, Children(false), second, {a} + first + second);
    assert belowSecond == [];
    assert belowFirst == ByCreation(f, second) + [];
  }

  lemma UnevenLevels(f: Forest)
    requires IsUneven(f) && WellFormed(f)
    ensures LevelList(f, false, 1) == [2, 4, 3]
  {
    UnevenBatches(f);
    assert {1} + {2, 4} == {1, 2, 4} && {1, 2, 4} + {3} == {1, 2, 4, 3};
    TwoLevels(f, 1, {2, 4}, {3});
    ListedByCreation(f, {2, 4}, [2, 4]);
    SingletonByCreation(f, 3);
  }

  lemma UnevenPages(f: Forest)
    requires IsUneven(f) && WellFormed(f)
    ensures LevelList(f, false, 1) == [2, 4, 3] && DescendantList(f, false, 1) == [2, 3, 4]
    ensures !DeeperIsYounger(f, false, 1)
  {
    UnevenBelow(f);
    UnevenLevels(f);
    ListedByCreation(f, {2, 3, 4}, [2, 3, 4]);
    ListsAgree(f, false, 1);
    assert [2, 4, 3][1] != [2, 3, 4][1];
  }

  lemma FirstTwo(s: seq<DirectoryID>)
    requires |s| >= 2
    ensures PageOf(s, Options(false, 1, 2)) == [s[0], s[1]]
  {
    assert Options(false, 1, 2).GetPageOffset() == 0;
  }

  lemma UnevenIsUneven()
    ensures IsUneven(Uneven())
  {
  }

  /** In a live forest of five directories the first pages of size two differ. */
  lemma UnevenPagesDiffer()
    ensures WellFormed(Uneven()) && LiveClosure(Uneven()) && RootsLive(Uneven())
    ensures PageOf(LevelList(Uneven(), false, 1), Options(false, 1, 2)) == [2, 4]
    ensures PageOf(DescendantList(Uneven(), false, 1), Options(false, 1, 2)) == [2, 3]
    ensures !DeeperIsYounger(Uneven(), false, 1)
  {
    var f := Uneven();
    UnevenIsUneven();
    UnevenShape(f);
    UnevenPages(f);
    FirstTwo([2, 4, 3]);
    FirstTwo([2, 3, 4]);
  }

  /**
   In a live-closed forest nothing visible lies below a hidden start, so memory lists nothing where the query fails.
   */
  lemma HiddenStartListsNothing(f: Forest, withDeleted: bool, a: DirectoryID)
    requires WellFormed(f) && LiveClosure(f) && !Visible(f, withDeleted, a)
    ensures DescendantList(f, withDeleted, a) == []
  {
    forall x | x in Descendants(f, withDeleted, a)
      ensures false
    {
      HiddenStartHidesBelow(f, withDeleted, a, x);
    }
    assert Descendants(f, withDeleted, a) == {};
  }

  lemma {:induction false} HiddenStartHidesBelow(f: Forest, withDeleted: bool, a: DirectoryID, x: DirectoryID)
    requires WellFormed(f) && LiveClosure(f) && !Visible(f, withDeleted, a)
    ensures !Under(f, withDeleted, a, x)
    decreases if x in f then f[x].createdAt else 0
  {
    if Visible(f, withDeleted, x) && f[x].parent.Some? {
      assert ParentIsOlder(f, x);
      if f[x].parent.value != a {
        HiddenStartHidesBelow(f, withDeleted, a, f[x].parent.value);
      }
    }
  }

  /** From a directory to itself the query's answer is empty, while the in-memory walk always fails. */
  lemma ParentsUntilSelf(f: Forest, withDeleted: bool, a: DirectoryID)
    requires WellFormed(f)
    ensures ChainUntil(f, withDeleted, a, a) == [] && !Under(f, withDeleted, a, a)
  {
    if Under(f, withDeleted, a, a) {
      UnderIsYounger(f, withDeleted, a, a);
      assert false;
    }
  }
}
