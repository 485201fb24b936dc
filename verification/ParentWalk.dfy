/** The in-memory driver's walks up the parent pointers. */
module ParentWalk {
  import opened Wrappers
  import opened Directories
  import opened Storage

  /** `x` and all its ancestors are visible. */
  ghost predicate WalkVisible(f: Forest, withDeleted: bool, x: DirectoryID)
    requires WellFormed(f)
  {
    Visible(f, withDeleted, x) && forall y | y in Ancestors(f, x) :: Visible(f, withDeleted, y)
  }

  /** The directories fetched so far are those of the collected ids; only the last id is still unfetched. */
  ghost predicate Paired(f: Forest, start: DirectoryID, current: DirectoryID, ids: seq<DirectoryID>,
                         dirs: seq<Directory>) {
    && (ids == [] ==> current == start && dirs == [])
    && (ids != [] ==>
          && current == ids[|ids| - 1] && |dirs| == |ids| - 1
          && start in f && current in f && f[current].createdAt < f[start].createdAt)
    && Match(f, ids, dirs)
  }

  ghost predicate Match(f: Forest, ids: seq<DirectoryID>, dirs: seq<Directory>) {
    |dirs| <= |ids| && forall k | 0 <= k < |dirs| :: ids[k] in f && dirs[k] == f[ids[k]]
  }

  /** The directories after fetching `current`: the start itself is not kept. */
  function Fetched(f: Forest, current: DirectoryID, ids: seq<DirectoryID>, dirs: seq<Directory>): seq<Directory>
    requires current in f
  {
    if ids != [] then dirs + [f[current]] else dirs
  }

  lemma PairedStep(f: Forest, start: DirectoryID, current: DirectoryID, ids: seq<DirectoryID>, dirs: seq<Directory>)
    requires WellFormed(f) && Paired(f, start, current, ids, dirs) && current in f && f[current].parent.Some?
    ensures Paired(f, start, f[current].parent.value, ids + [f[current].parent.value], Fetched(f, current, ids, dirs))
    ensures f[current].parent.value in f && f[f[current].parent.value].createdAt < f[current].createdAt
  {
    assert ParentIsOlder(f, current);
  }

  ghost predicate Climbing(f: Forest, withDeleted: bool, id: DirectoryID, current: DirectoryID, ids: seq<DirectoryID>)
    requires WellFormed(f)
  {
    && Ancestors(f, id) == ids + Ancestors(f, current)
    && (ids != [] ==> Visible(f, withDeleted, id) && current == ids[|ids| - 1])
    && (ids == [] ==> current == id)
    && forall k | 0 <= k < |ids| - 1 :: Visible(f, withDeleted, ids[k])
  }

  lemma ClimbStep(f: Forest, withDeleted: bool, id: DirectoryID, current: DirectoryID, ids: seq<DirectoryID>)
    requires WellFormed(f) && Climbing(f, withDeleted, id, current, ids)
    requires Visible(f, withDeleted, current) && f[current].parent.Some?
    ensures Climbing(f, withDeleted, id, f[current].parent.value, ids + [f[current].parent.value])
  {
    assert ParentIsOlder(f, current);
    var p := f[current].parent.value;
    assert ids + ([p] + Ancestors(f, p)) == ids + [p] + Ancestors(f, p);
  }

  lemma ClimbFails(f: Forest, withDeleted: bool, id: DirectoryID, current: DirectoryID, ids: seq<DirectoryID>)
    requires WellFormed(f) && Climbing(f, withDeleted, id, current, ids) && !Visible(f, withDeleted, current)
    ensures !WalkVisible(f, withDeleted, id)
  {
    if ids != [] {
      assert Ancestors(f, id)[|ids| - 1] == current;
    }
  }

  lemma ClimbEnds(f: Forest, withDeleted: bool, id: DirectoryID, current: DirectoryID, ids: seq<DirectoryID>)
    requires WellFormed(f) && Climbing(f, withDeleted, id, current, ids)
    requires Visible(f, withDeleted, current) && f[current].parent.None?
    ensures ids == Ancestors(f, id) && WalkVisible(f, withDeleted, id)
  {
    assert Ancestors(f, current) == [];
  }

  /** What the walk up from `id` returns. */
  ghost predicate WalkedUp(f: Forest, withDeleted: bool, id: DirectoryID,
                           r: Result<(seq<DirectoryID>, seq<Directory>), StorageError>)
    requires WellFormed(f)
  {
    match r
    case Ok(walked) =>
      && WalkVisible(f, withDeleted, id) && walked.0 == Ancestors(f, id)
      && |walked.0| == |walked.1| && Match(f, walked.0, walked.1)
    case Err(e) => !WalkVisible(f, withDeleted, id) && e == DirectoryNotFound
  }

  lemma ClimbReturns(f: Forest, withDeleted: bool, id: DirectoryID, current: DirectoryID,
                     ids: seq<DirectoryID>, dirs: seq<Directory>)
    requires WellFormed(f) && Climbing(f, withDeleted, id, current, ids) && Paired(f, id, current, ids, dirs)
    requires Visible(f, withDeleted, current) && f[current].parent.None?
    ensures WalkedUp(f, withDeleted, id, Ok((ids, Fetched(f, current, ids, dirs))))
  {
    ClimbEnds(f, withDeleted, id, current, ids);
  }

  ghost predicate ClimbingUntil(f: Forest, withDeleted: bool, child: DirectoryID, a: DirectoryID, current: DirectoryID,
                                ids: seq<DirectoryID>)
    requires WellFormed(f)
  {
    && (Under(f, withDeleted, a, child) <==> Under(f, withDeleted, a, current))
    && (child != a ==> ChainUntil(f, true, child, a) == ids + ChainUntil(f, true, current, a))
    && (ids == [] ==> current == child)
    && (ids != [] ==> current != a && child in f && f[child].parent.Some?)
  }

  /** A walk from a root to itself reads the root's nil parent. */
  ghost predicate ReadsNilParent(f: Forest, withDeleted: bool, child: DirectoryID, a: DirectoryID) {
    child == a && Visible(f, withDeleted, a) && f[a].parent.None?
  }

  ghost function UntilError(f: Forest, withDeleted: bool, child: DirectoryID, a: DirectoryID): StorageError {
    if ReadsNilParent(f, withDeleted, child, a) then NilDereference else DirectoryNotFound
  }

  /** What the walk from `child` to a visible `a` returns. */
  ghost predicate UntilWalked(f: Forest, withDeleted: bool, child: DirectoryID, a: DirectoryID,
                              r: Result<(seq<DirectoryID>, seq<Directory>), StorageError>)
    requires WellFormed(f)
  {
    match r
    case Ok(walked) =>
      && Under(f, withDeleted, a, child)
      && walked.0 == ChainUntil(f, true, child, a)
      && |walked.0| == |walked.1| && Match(f, walked.0, walked.1)
    case Err(e) =>
      !Under(f, withDeleted, a, child) && e == UntilError(f, withDeleted, child, a)
  }

  lemma ClimbUntilStops(f: Forest, withDeleted: bool, child: DirectoryID, a: DirectoryID, current: DirectoryID,
                        ids: seq<DirectoryID>)
    requires WellFormed(f) && ClimbingUntil(f, withDeleted, child, a, current, ids)
    requires !Visible(f, withDeleted, current) || f[current].parent.None?
    ensures UntilWalked(f, withDeleted, child, a,
              Err(if Visible(f, withDeleted, current) && current == a then NilDereference else DirectoryNotFound))
  {
  }

  lemma ClimbUntilEnds(f: Forest, withDeleted: bool, child: DirectoryID, a: DirectoryID, current: DirectoryID,
                       ids: seq<DirectoryID>, dirs: seq<Directory>)
    requires WellFormed(f) && ClimbingUntil(f, withDeleted, child, a, current, ids)
    requires Visible(f, withDeleted, current) && f[current].parent == Some(a) && a in f
    requires Paired(f, child, a, ids + [a], dirs)
    ensures UntilWalked(f, withDeleted, child, a, Ok((ids + [a], dirs + [f[a]])))
  {
    ClimbUntilStep(f, withDeleted, child, a, current, ids);
  }

  lemma ClimbUntilStep(f: Forest, withDeleted: bool, child: DirectoryID, a: DirectoryID, current: DirectoryID,
                       ids: seq<DirectoryID>)
    requires WellFormed(f) && ClimbingUntil(f, withDeleted, child, a, current, ids)
    requires Visible(f, withDeleted, current) && f[current].parent.Some?
    ensures f[current].parent.value != a ==>
              ClimbingUntil(f, withDeleted, child, a, f[current].parent.value, ids + [f[current].parent.value])
    ensures f[current].parent.value == a ==>
              Under(f, withDeleted, a, child) && ids + [a] == ChainUntil(f, true, child, a)
  {
    assert ParentIsOlder(f, current);
    var p := f[current].parent.value;
    assert ids + ([p] + ChainUntil(f, true, p, a)) == ids + [p] + ChainUntil(f, true, p, a);
    if p == a && child == a {
      UnderIsYounger(f, withDeleted, a, child);
      assert false;
    }
  }
}
