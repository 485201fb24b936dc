/** The writes on the directory forest: insert, update and soft delete, and what each of them keeps. */
module Lifecycle {
  import opened Wrappers
  import opened Directories
  import opened Ordering

  /** The clock has moved past every creation time. */
  ghost predicate Newer(f: Forest, now: Time) {
    now > 0 && forall x | x in f :: f[x].createdAt < now
  }

  function NewRow(id: DirectoryID, name: string, metadata: Metadata, parent: Option<DirectoryID>,
                  now: Time): Directory {
    Directory(id, name, metadata, parent, now, now, None)
  }

  function UpdatedRow(d: Directory, name: string, metadata: Metadata, now: Time): Directory {
    d.(name := name, metadata := metadata, updatedAt := now)
  }

  function MarkDeleted(f: Forest, s: set<DirectoryID>, now: Time): Forest {
    map x | x in f :: if x in s then f[x].(deletedAt := Some(now)) else f[x]
  }

  /** What the delete query marks: the directory and its live subtree, if it is live and no root. */
  ghost function DeleteSet(f: Forest, id: DirectoryID): set<DirectoryID>
    requires WellFormed(f)
  {
    if Live(f, id) && f[id].parent.Some? then {id} + Descendants(f, false, id) else {}
  }

  /** The live directories of the subtree of `id`, found without regard to what lies between. */
  ghost function LiveSubtree(f: Forest, id: DirectoryID): set<DirectoryID>
    requires WellFormed(f)
  {
    set x | x in f && Live(f, x) && (x == id || Under(f, true, id, x))
  }

  lemma InsertKeeps(f: Forest, d: Directory)
    requires WellFormed(f) && d.id !in f && Newer(f, d.createdAt) && d.deletedAt.None?
    requires d.parent.Some? ==> d.parent.value in f
    ensures WellFormed(f[d.id := d]) && Extends(f, f[d.id := d])
    ensures RootsLive(f) ==> RootsLive(f[d.id := d])
    ensures LiveClosure(f) ==> (LiveClosure(f[d.id := d]) <==> (d.parent.Some? ==> Live(f, d.parent.value)))
  {
    var g := f[d.id := d];
    forall x | x in g && g[x].parent.Some?
      ensures ParentIsOlder(g, x)
    {
      assert x != d.id ==> ParentIsOlder(f, x);
    }
    if LiveClosure(f) && d.parent.Some? {
      assert Live(f, d.parent.value) ==> Live(g, d.parent.value);
      if !Live(f, d.parent.value) {
        assert Live(g, d.id) && !Live(g, d.parent.value);
      }
    }
    if LiveClosure(f) && (d.parent.Some? ==> Live(f, d.parent.value)) {
      forall x | x in g && Live(g, x) && g[x].parent.Some?
        ensures Live(g, g[x].parent.value)
      {
        if x != d.id {
          assert ParentIsOlder(f, x) && Live(f, x);
        }
      }
    }
  }

  /** An insert that nothing checks keeps the forest well formed exactly when the parent is stored. */
  lemma InsertNeedsParent(f: Forest, d: Directory)
    requires WellFormed(f) && d.id !in f && Newer(f, d.createdAt)
    ensures WellFormed(f[d.id := d]) <==> (d.parent.Some? ==> d.parent.value in f)
  {
    var g := f[d.id := d];
    if WellFormed(g) && d.parent.Some? {
      assert ParentIsOlder(g, d.id);
    }
    if d.parent.Some? ==> d.parent.value in f {
      forall x | x in g && g[x].parent.Some?
        ensures ParentIsOlder(g, x)
      {
        assert x != d.id ==> ParentIsOlder(f, x);
      }
    }
  }

  lemma UpdateKeeps(f: Forest, id: DirectoryID, name: string, metadata: Metadata, now: Time)
    requires WellFormed(f) && id in f
    ensures WellFormed(f[id := UpdatedRow(f[id], name, metadata, now)])
    ensures Extends(f, f[id := UpdatedRow(f[id], name, metadata, now)])
    ensures RootsLive(f) ==> RootsLive(f[id := UpdatedRow(f[id], name, metadata, now)])
    ensures LiveClosure(f) ==> LiveClosure(f[id := UpdatedRow(f[id], name, metadata, now)])
  {
    var g := f[id := UpdatedRow(f[id], name, metadata, now)];
    forall x | x in g && g[x].parent.Some?
      ensures ParentIsOlder(g, x)
    {
      assert ParentIsOlder(f, x);
    }
    if LiveClosure(f) {
      forall x | x in g && Live(g, x) && g[x].parent.Some?
        ensures Live(g, g[x].parent.value)
      {
        assert Live(f, x);
      }
    }
  }

  lemma MarkKeeps(f: Forest, s: set<DirectoryID>, now: Time)
    requires WellFormed(f) && forall x | x in s :: Live(f, x)
    ensures WellFormed(MarkDeleted(f, s, now)) && Extends(f, MarkDeleted(f, s, now))
    ensures LiveSet(MarkDeleted(f, s, now)) == LiveSet(f) - s
  {
    var g := MarkDeleted(f, s, now);
    MarkKeepsRows(f, s, now);
    forall x | x in g && g[x].parent.Some?
      ensures ParentIsOlder(g, x)
    {
      assert ParentIsOlder(f, x);
    }
    forall x
      ensures x in LiveSet(g) <==> x in LiveSet(f) - s
    {
    }
  }

  lemma MarkKeepsRows(f: Forest, s: set<DirectoryID>, now: Time)
    ensures
      var g := MarkDeleted(f, s, now);
      g.Keys == f.Keys && forall x | x in f :: g[x] == f[x].(deletedAt := if x in s then Some(now) else f[x].deletedAt)
  {
  }

  /** Marking leaves live closure intact exactly when the set takes every live child of its members. */
  lemma MarkKeepsClosure(f: Forest, s: set<DirectoryID>, now: Time)
    requires WellFormed(f) && LiveClosure(f) && forall x | x in s :: Live(f, x)
    ensures LiveClosure(MarkDeleted(f, s, now)) <==>
              forall x | x in f && Live(f, x) && f[x].parent.Some? && f[x].parent.value in s :: x in s
  {
    var g := MarkDeleted(f, s, now);
    if LiveClosure(g) {
      forall x | x in f && Live(f, x) && f[x].parent.Some? && f[x].parent.value in s
        ensures x in s
      {
        assert x !in s ==> Live(g, x);
      }
    }
  }

  lemma DeleteSetIsLive(f: Forest, id: DirectoryID)
    requires WellFormed(f)
    ensures forall x | x in DeleteSet(f, id) :: Live(f, x) && f[x].parent.Some?
  {
  }

  /** A delete leaves the table as it is exactly when the directory is hidden or a root. */
  lemma DeleteChangesNothing(f: Forest, id: DirectoryID, now: Time)
    requires WellFormed(f)
    ensures MarkDeleted(f, DeleteSet(f, id), now) == f <==> !(Live(f, id) && f[id].parent.Some?)
    ensures DeleteSet(f, id) == {} <==> !(Live(f, id) && f[id].parent.Some?)
  {
    if Live(f, id) && f[id].parent.Some? {
      assert id in DeleteSet(f, id);
      assert MarkDeleted(f, DeleteSet(f, id), now)[id] != f[id];
    }
  }

  /** Under live closure the delete query takes exactly the live subtree. */
  lemma DeleteSetIsLiveSubtree(f: Forest, id: DirectoryID)
    requires WellFormed(f) && LiveClosure(f)
    ensures DeleteSet(f, id) == if Live(f, id) && f[id].parent.Some? then LiveSubtree(f, id) else {}
  {
    if Live(f, id) && f[id].parent.Some? {
      forall x
        ensures x in DeleteSet(f, id) <==> x in LiveSubtree(f, id)
      {
        if Live(f, x) {
          LiveUnder(f, id, x);
        }
      }
    }
  }

  /** The delete query keeps the shape of the forest and its invariants. */
  lemma DeleteKeeps(f: Forest, id: DirectoryID, now: Time)
    requires WellFormed(f) && LiveClosure(f)
    ensures WellFormed(MarkDeleted(f, DeleteSet(f, id), now)) && Extends(f, MarkDeleted(f, DeleteSet(f, id), now))
    ensures LiveClosure(MarkDeleted(f, DeleteSet(f, id), now))
    ensures RootsLive(f) ==> RootsLive(MarkDeleted(f, DeleteSet(f, id), now))
  {
    var s := DeleteSet(f, id);
    DeleteSetIsLive(f, id);
    MarkKeeps(f, s, now);
    MarkKeepsClosure(f, s, now);
    forall x | x in f && Live(f, x) && f[x].parent.Some? && f[x].parent.value in s
      ensures x in s
    {
      DeleteSetTakesChildren(f, id, x);
    }
  }

  lemma DeleteSetTakesChildren(f: Forest, id: DirectoryID, x: DirectoryID)
    requires WellFormed(f) && Live(f, x) && f[x].parent.Some? && f[x].parent.value in DeleteSet(f, id)
    ensures x in DeleteSet(f, id)
  {
    assert ParentIsOlder(f, x);
    assert Under(f, false, id, x);
  }

  /** The delete query takes the live subtree and nothing else, and taking it again finds nothing. */
  lemma DeleteIsExact(f: Forest, id: DirectoryID, now: Time)
    requires WellFormed(f) && LiveClosure(f)
    ensures
      var s, g := DeleteSet(f, id), MarkDeleted(f, DeleteSet(f, id), now);
      && s == (if Live(f, id) && f[id].parent.Some? then LiveSubtree(f, id) else {})
      && (forall x | x in f :: g[x] == if x in s then f[x].(deletedAt := Some(now)) else f[x])
      && LiveSet(g) == LiveSet(f) - s
      && |LiveSet(g)| == |LiveSet(f)| - |s|
      && WellFormed(g) && DeleteSet(g, id) == {}
  {
    var s := DeleteSet(f, id);
    DeleteSetIsLiveSubtree(f, id);
    DeleteSetIsLive(f, id);
    MarkKeeps(f, s, now);
    assert s <= LiveSet(f);
  }

  /** `n` rows taken from the front of the live descendants, with `id` itself. */
  ghost function Truncated(f: Forest, id: DirectoryID, n: nat): set<DirectoryID>
    requires WellFormed(f)
  {
    var all := DescendantList(f, false, id);
    {id} + Elements(all[..if n < |all| then n else |all|])
  }

  /** Creation order lists parents first. */
  lemma DescendantListParentsFirst(f: Forest, withDeleted: bool, a: DirectoryID)
    requires WellFormed(f)
    ensures ParentsFirst(f, {a}, DescendantList(f, withDeleted, a))
  {
    var list := DescendantList(f, withDeleted, a);
    forall i | 0 <= i < |list|
      ensures ParentBefore(f, {a}, list[i], list[..i])
    {
      ParentListedBefore(f, withDeleted, a, i);
    }
  }

  lemma ParentListedBefore(f: Forest, withDeleted: bool, a: DirectoryID, i: nat)
    requires WellFormed(f) && i < |DescendantList(f, withDeleted, a)|
    ensures ParentBefore(f, {a}, DescendantList(f, withDeleted, a)[i], DescendantList(f, withDeleted, a)[..i])
  {
    var s, list := Descendants(f, withDeleted, a), DescendantList(f, withDeleted, a);
    ByCreationElements(f, s);
    ByCreationOrdered(f, s);
    assert list[i] in Elements(list);
    assert ParentIsOlder(f, list[i]);
    var p := f[list[i]].parent.value;
    if p != a {
      assert p in Elements(list);
    }
  }

  /**
   A delete that takes only the `n` oldest live descendants keeps live closure exactly when there are
   no more than `n` of them.
   */
  lemma TruncatedDeleteKeepsClosure(f: Forest, id: DirectoryID, n: nat, now: Time)
    requires WellFormed(f) && LiveClosure(f) && Live(f, id)
    ensures LiveClosure(MarkDeleted(f, Truncated(f, id, n), now)) <==> |Descendants(f, false, id)| <= n
  {
    var all := DescendantList(f, false, id);
    var s := Truncated(f, id, n);
    TruncatedIsLive(f, id, n);
    MarkKeepsClosure(f, s, now);
    ByCreationElements(f, Descendants(f, false, id));
    if |all| <= n {
      assert all[..|all|] == all;
      forall x | x in f && Live(f, x) && f[x].parent.Some? && f[x].parent.value in s
        ensures x in s
      {
      }
    } else {
      ParentListedBefore(f, false, id, n);
      NotInPrefix(f, id, n);
    }
  }

  lemma TruncatedIsLive(f: Forest, id: DirectoryID, n: nat)
    requires WellFormed(f) && Live(f, id)
    ensures forall x | x in Truncated(f, id, n) :: Live(f, x)
  {
    var all := DescendantList(f, false, id);
    ByCreationElements(f, Descendants(f, false, id));
    assert forall x | x in all :: x in Elements(all);
  }

  lemma NotInPrefix(f: Forest, id: DirectoryID, n: nat)
    requires WellFormed(f) && n < |DescendantList(f, false, id)|
    ensures DescendantList(f, false, id)[n] !in Truncated(f, id, n)
    ensures Live(f, DescendantList(f, false, id)[n])
  {
    var all := DescendantList(f, false, id);
    ByCreationElements(f, Descendants(f, false, id));
    ByCreationOrdered(f, Descendants(f, false, id));
    OrderedHasNoDuplicates(f, all);
    assert all[n] in Elements(all);
    UnderIsYounger(f, false, id, all[n]);
  }
}
