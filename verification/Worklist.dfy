/** The descendants of a directory, found by expanding a list of directories while scanning it. */
module Worklist {
  import opened Wrappers
  import opened Directories
  import opened Ordering

  type ChildIndex = map<DirectoryID, seq<Directory>>

  function ChildrenAt(index: ChildIndex, p: DirectoryID): seq<Directory> {
    if p in index then index[p] else []
  }

  ghost function VisibleChildren(f: Forest, withDeleted: bool, p: DirectoryID,
                                 among: set<DirectoryID>): set<DirectoryID> {
    set x | x in f && x in among && Visible(f, withDeleted, x) && f[x].parent == Some(p)
  }

  /** The index groups the visible rows among `done` by their parent. */
  ghost predicate Indexes(f: Forest, withDeleted: bool, index: ChildIndex, done: set<DirectoryID>) {
    forall p: DirectoryID :: Lists(f, ChildrenAt(index, p), VisibleChildren(f, withDeleted, p, done))
  }

  lemma IndexStep(f: Forest, withDeleted: bool, index: ChildIndex, done: set<DirectoryID>, x: DirectoryID)
    requires WellFormed(f) && x in f && x !in done && Indexes(f, withDeleted, index, done)
    ensures !Visible(f, withDeleted, x) || f[x].parent.None? ==> Indexes(f, withDeleted, index, done + {x})
    ensures Visible(f, withDeleted, x) && f[x].parent.Some? ==>
              var p := f[x].parent.value;
              Indexes(f, withDeleted, index[p := ChildrenAt(index, p) + [f[x]]], done + {x})
  {
    var more := done + {x};
    if Visible(f, withDeleted, x) && f[x].parent.Some? {
      var p := f[x].parent.value;
      var next := index[p := ChildrenAt(index, p) + [f[x]]];
      forall q: DirectoryID
        ensures Lists(f, ChildrenAt(next, q), VisibleChildren(f, withDeleted, q, more))
      {
        assert Lists(f, ChildrenAt(index, q), VisibleChildren(f, withDeleted, q, done));
        if q == p {
          assert VisibleChildren(f, withDeleted, q, more) == VisibleChildren(f, withDeleted, q, done) + {x};
          ListsOneMore(f, ChildrenAt(index, q), VisibleChildren(f, withDeleted, q, done), x);
        } else {
          assert VisibleChildren(f, withDeleted, q, more) == VisibleChildren(f, withDeleted, q, done);
        }
      }
    } else {
      forall q: DirectoryID
        ensures Lists(f, ChildrenAt(index, q), VisibleChildren(f, withDeleted, q, more))
      {
        assert VisibleChildren(f, withDeleted, q, more) == VisibleChildren(f, withDeleted, q, done);
      }
    }
  }

  /** The state of the worklist loop: `children[..i]` have been expanded, the rest has not. */
  ghost predicate WorklistInvariant(f: Forest, withDeleted: bool, id: DirectoryID, children: seq<Directory>, i: nat)
    requires WellFormed(f)
  {
    && i <= |children|
    && NoDuplicates(children)
    && (forall d | d in children :: d.id in f && f[d.id] == d && Under(f, withDeleted, id, d.id))
    && (forall d | d in children :: d.parent == Some(id) || ParentIn(children[..i], d))
    && (forall x | Visible(f, withDeleted, x) && (f[x].parent == Some(id) || ParentIn(children[..i], f[x])) ::
         f[x] in children)
  }

  ghost predicate ParentIn(ds: seq<Directory>, d: Directory) {
    exists e | e in ds :: d.parent == Some(e.id)
  }

  lemma WorklistStart(f: Forest, withDeleted: bool, id: DirectoryID, kids: seq<Directory>)
    requires WellFormed(f) && Lists(f, kids, VisibleChildren(f, withDeleted, id, f.Keys))
    ensures WorklistInvariant(f, withDeleted, id, kids, 0)
  {
    forall x | Visible(f, withDeleted, x) && (f[x].parent == Some(id) || ParentIn(kids[..0], f[x]))
      ensures f[x] in kids
    {
      assert x in VisibleChildren(f, withDeleted, id, f.Keys);
    }
  }

  lemma NotExpandedYet(children: seq<Directory>, i: nat, kid: Directory)
    requires i < |children| && NoDuplicates(children) && kid.parent == Some(children[i].id)
    requires forall d, e | d in children && e in children && d.id == e.id :: d == e
    ensures !ParentIn(children[..i], kid)
  {
    forall e | e in children[..i]
      ensures kid.parent != Some(e.id)
    {
      var k :| 0 <= k < i && children[k] == e;
      assert children[k] in children && children[i] in children;
    }
  }

  /** The children of the row being expanded are new: their parent is neither the start nor any row expanded before. */
  lemma KidsAreNew(f: Forest, withDeleted: bool, id: DirectoryID, children: seq<Directory>, i: nat, kid: Directory)
    requires WellFormed(f) && WorklistInvariant(f, withDeleted, id, children, i) && i < |children|
    requires kid.parent == Some(children[i].id)
    ensures kid !in children
  {
    if kid in children {
      assert children[i] in children;
      UnderIsYounger(f, withDeleted, id, children[i].id);
      assert ParentIn(children[..i], kid);
      NotExpandedYet(children, i, kid);
      assert false;
    }
  }

  lemma WorklistStep(f: Forest, withDeleted: bool, id: DirectoryID, children: seq<Directory>, i: nat,
                     kids: seq<Directory>)
    requires WellFormed(f) && WorklistInvariant(f, withDeleted, id, children, i) && i < |children|
    requires Lists(f, kids, VisibleChildren(f, withDeleted, children[i].id, f.Keys))
    ensures WorklistInvariant(f, withDeleted, id, children + kids, i + 1)
  {
    var next := children + kids;
    assert next[..i + 1] == children[..i] + [children[i]];
    forall d | d in kids
      ensures d !in children && d.id in f && f[d.id] == d && Under(f, withDeleted, id, d.id)
                && d.parent == Some(children[i].id)
    {
      assert d.id in VisibleChildren(f, withDeleted, children[i].id, f.Keys);
      KidsAreNew(f, withDeleted, id, children, i, d);
    }
    assert NoDuplicates(next) by {
      assert Elements(children) !! Elements(kids);
      NoDuplicatesConcat(children, kids);
    }
    WorklistStepParents(children, i, kids, id);
    forall x | Visible(f, withDeleted, x) && (f[x].parent == Some(id) || ParentIn(next[..i + 1], f[x]))
      ensures f[x] in next
    {
      if f[x].parent != Some(id) && !ParentIn(children[..i], f[x]) {
        var e :| e in next[..i + 1] && f[x].parent == Some(e.id);
        assert e == children[i];
        assert x in VisibleChildren(f, withDeleted, children[i].id, f.Keys);
      }
    }
  }

  lemma WorklistStepParents(children: seq<Directory>, i: nat, kids: seq<Directory>, id: DirectoryID)
    requires i < |children|
    requires forall d | d in children :: d.parent == Some(id) || ParentIn(children[..i], d)
    requires forall d | d in kids :: d.parent == Some(children[i].id)
    ensures forall d | d in children + kids :: d.parent == Some(id) || ParentIn((children + kids)[..i + 1], d)
  {
    var done := (children + kids)[..i + 1];
    assert done == children[..i] + [children[i]];
    forall d | d in children + kids
      ensures d.parent == Some(id) || ParentIn(done, d)
    {
      if d in children {
        if d.parent != Some(id) {
          var e :| e in children[..i] && d.parent == Some(e.id);
          assert e in done;
        }
      } else {
        assert children[i] in done;
      }
    }
  }

  /** When every listed row has been expanded, exactly the descendants have been listed. */
  lemma WorklistEnd(f: Forest, withDeleted: bool, id: DirectoryID, children: seq<Directory>)
    requires WellFormed(f) && WorklistInvariant(f, withDeleted, id, children, |children|)
    ensures Lists(f, children, Descendants(f, withDeleted, id))
  {
    assert children[..|children|] == children;
    var s := set d | d in children :: d.id;
    forall y | Visible(f, withDeleted, y) && f[y].parent.Some? && (f[y].parent.value == id || f[y].parent.value in s)
      ensures y in s
    {
      if f[y].parent.value != id {
        var e :| e in children && e.id == f[y].parent.value;
        assert ParentIn(children, f[y]);
      }
      assert f[y] in children;
    }
    forall x | x in Descendants(f, withDeleted, id)
      ensures f[x] in children
    {
      ClosedSetHoldsDescendants(f, withDeleted, id, s, x);
      var d :| d in children && d.id == x;
    }
  }

  lemma WorklistBounded(f: Forest, withDeleted: bool, id: DirectoryID, children: seq<Directory>, i: nat)
    requires WellFormed(f) && WorklistInvariant(f, withDeleted, id, children, i)
    ensures |children| <= |f|
  {
    var ids := IdsOf(children);
    assert NoDuplicates(ids) by {
      forall a, b | 0 <= a < b < |ids|
        ensures ids[a] != ids[b]
      {
        assert children[a] in children && children[b] in children;
      }
    }
    assert forall x | x in ids :: x in f;
    NoDuplicatesCardinality(ids);
    SubsetCardinality(Elements(ids), f.Keys);
  }

  /** Expands a list of directories with their children while scanning it. */
  method ExpandChildren(ghost f: Forest, ghost withDeleted: bool, index: ChildIndex, id: DirectoryID)
    returns (children: seq<Directory>)
    requires WellFormed(f) && Indexes(f, withDeleted, index, f.Keys)
    ensures Lists(f, children, Descendants(f, withDeleted, id))
  {
    children := ChildrenAt(index, id);
    WorklistStart(f, withDeleted, id, children);
    var i := 0;
    while i < |children|
      invariant WorklistInvariant(f, withDeleted, id, children, i)
      decreases |f| - i
    {
      WorklistBounded(f, withDeleted, id, children, i);
      WorklistStep(f, withDeleted, id, children, i, ChildrenAt(index, children[i].id));
      children := children + ChildrenAt(index, children[i].id);
      i := i + 1;
    }
    WorklistEnd(f, withDeleted, id, children);
  }
}
