/** The two deletes compared: the in-memory one stops after the first page of live descendants. */
module DriverDeletes {
  import opened Wrappers
  import opened Directories
  import opened Lifecycle
  import opened Ordering
  import opened Storage
  import opened MemoryDriver

  /** The directories the in-memory delete marks. */
  ghost function MemoryDeleteSet(f: Forest, id: DirectoryID): set<DirectoryID>
    requires WellFormed(f)
  {
    {id} + Elements(FirstPageBelow(f, id))
  }

  lemma MemoryDeleteIsTruncated(f: Forest, id: DirectoryID)
    requires WellFormed(f)
    ensures MemoryDeleteSet(f, id) == Truncated(f, id, DEFAULT_PAGE_SIZE)
  {
    FirstPage(DescendantList(f, false, id));
  }

  /** The in-memory delete keeps live closure exactly when there are at most ten live descendants. */
  lemma MemoryDeleteKeepsClosure(f: Forest, id: DirectoryID, now: Time)
    requires WellFormed(f) && LiveClosure(f) && Live(f, id)
    ensures LiveClosure(MarkDeleted(f, MemoryDeleteSet(f, id), now)) <==> |Descendants(f, false, id)| <= 10
  {
    MemoryDeleteIsTruncated(f, id);
    TruncatedDeleteKeepsClosure(f, id, DEFAULT_PAGE_SIZE, now);
  }

  /** It takes the same directories as the CockroachDB delete exactly when there are at most ten of them below. */
  lemma DeletesAgree(f: Forest, id: DirectoryID)
    requires WellFormed(f) && Live(f, id) && f[id].parent.Some?
    ensures MemoryDeleteSet(f, id) <= DeleteSet(f, id)
    ensures MemoryDeleteSet(f, id) == DeleteSet(f, id) <==> |Descendants(f, false, id)| <= 10
  {
    var all := DescendantList(f, false, id);
    MemoryDeleteIsTruncated(f, id);
    ByCreationElements(f, Descendants(f, false, id));
    assert forall x | x in all :: x in Elements(all);
    if |all| <= DEFAULT_PAGE_SIZE {
      assert all[..|all|] == all;
    } else {
      NotInPrefix(f, id, DEFAULT_PAGE_SIZE);
      assert all[DEFAULT_PAGE_SIZE] in Elements(all);
    }
  }

  /** Even a truncated delete takes a set closed under parents below `id`. */
  lemma MemoryDeleteTakesParents(f: Forest, id: DirectoryID, x: DirectoryID)
    requires WellFormed(f) && x in MemoryDeleteSet(f, id) && x != id
    ensures x in f && f[x].parent.Some? && f[x].parent.value in MemoryDeleteSet(f, id)
  {
    var all := DescendantList(f, false, id);
    var n := Min(DEFAULT_PAGE_SIZE, |all|);
    MemoryDeleteIsTruncated(f, id);
    DescendantListParentsFirst(f, false, id);
    var i :| 0 <= i < n && all[i] == x;
    assert ParentBefore(f, {id}, all[i], all[..i]);
    if f[x].parent.value != id {
      PrefixMember(all, i, n, f[x].parent.value);
    }
  }

  lemma PrefixMember(s: seq<DirectoryID>, i: nat, n: nat, y: DirectoryID)
    requires i <= n <= |s| && y in s[..i]
    ensures y in Elements(s[..n])
  {
    var j :| 0 <= j < i && s[..i][j] == y;
    assert s[..n][j] == y;
  }

  /** The ids 2 to `n + 1`. */
  ghost function Leaves(n: nat): set<DirectoryID> {
    if n == 0 then {} else Leaves(n - 1) + {n + 1}
  }

  lemma {:induction false} LeavesRange(n: nat)
    ensures forall x :: x in Leaves(n) <==> 2 <= x < n + 2
    ensures |Leaves(n)| == n
  {
    if n > 0 {
      LeavesRange(n - 1);
    }
  }

  /** A root 0, its child 1, and `n` children of 1. */
  ghost function Star(n: nat): Forest {
    map x | x in {0, 1} + Leaves(n) ::
      Directory(x, "", map[], if x == 0 then None else if x == 1 then Some(0) else Some(1), x + 1, x + 1, None)
  }

  lemma StarShape(n: nat)
    ensures WellFormed(Star(n)) && LiveClosure(Star(n)) && Live(Star(n), 1)
    ensures |Descendants(Star(n), false, 1)| == n
  {
    var f := Star(n);
    LeavesRange(n);
    assert forall x | x in f && f[x].parent.Some? :: ParentIsOlder(f, x);
    assert !Under(f, false, 1, 0);
    assert !Under(f, false, 1, 1);
    assert Descendants(f, false, 1) == Leaves(n);
  }

  /** A root and its one child: deleting the child changes the table, and the driver does so in read-only mode too. */
  lemma DeleteChangesSmallestStore(now: Time)
    ensures WellFormed(Star(0)) && MarkDeleted(Star(0), DeleteSet(Star(0), 1), now) != Star(0)
  {
    StarShape(0);
    DeleteChangesNothing(Star(0), 1, now);
  }

  /** Eleven live descendants are one too many for the in-memory delete. */
  lemma ElevenDescendantsBreakClosure(now: Time)
    ensures WellFormed(Star(11)) && LiveClosure(Star(11)) && Live(Star(11), 1)
    ensures !LiveClosure(MarkDeleted(Star(11), MemoryDeleteSet(Star(11), 1), now))
    ensures WellFormed(Star(10)) && LiveClosure(MarkDeleted(Star(10), MemoryDeleteSet(Star(10), 1), now))
  {
    StarShape(11);
    StarShape(10);
    MemoryDeleteKeepsClosure(Star(11), 1, now);
    MemoryDeleteKeepsClosure(Star(10), 1, now);
  }
}
