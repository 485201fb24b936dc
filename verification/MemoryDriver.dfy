/** The in-memory storage driver: a map from ids to directory records that are updated in place. */
module MemoryDriver {
  import opened Wrappers
  import opened Directories
  import opened Lifecycle
  import opened Ordering
  import opened Storage
  import opened RootPages
  import opened Records
  import opened CreationSort
  import opened Worklist
  import opened ParentWalk

  ghost function TimesOf(f: Forest, s: seq<DirectoryID>): seq<Time> {
    seq(|s|, i requires 0 <= i < |s| => if s[i] in f then f[s[i]].createdAt else 0)
  }

  /** The directories deleted along with `id`: the first page of its live descendants. */
  ghost function FirstPageBelow(f: Forest, id: DirectoryID): seq<DirectoryID>
    requires WellFormed(f)
  {
    PageOf(DescendantList(f, false, id), Built([]))
  }

  class Driver {
    var dirMap: map<DirectoryID, DirectoryRecord>

    /**
     The swaps `sort.Slice` makes on a parent list. Its comparator reads the creation times of the
     unsorted `parents`, so the swaps depend on those times alone; nothing else is known of them.
     */
    const parentSwaps: seq<Time> -> seq<(nat, nat)>

    constructor (parentSwaps: seq<Time> -> seq<(nat, nat)>)
      ensures Valid() && Contents() == map[] && dirMap == map[]
      ensures this.parentSwaps == parentSwaps
    {
      this.dirMap := map[];
      this.parentSwaps := parentSwaps;
    }

    ghost predicate Valid()
      reads this, dirMap.Values
    {
      forall x | x in dirMap :: dirMap[x].id == x
    }

    ghost function Contents(): Forest
      reads this, dirMap.Values
    {
      map x | x in dirMap :: dirMap[x].Value()
    }

    /**
     The end of both create methods: names and stamps the caller's record and stores it, unless something is stored
     under that id already. A record that is itself in the map under another id stays there as well, and the map is
     no longer keyed by id.
     */
    method LoadOrStore(d: DirectoryRecord, id: DirectoryID, created: Time, updated: Time)
      returns (stored: DirectoryRecord)
      requires Valid()
      modifies this`dirMap, d
      ensures Valid() <==> d !in old(dirMap).Values || old(d.id) == id
      ensures d.Value() == old(d.Value()).(id := id, createdAt := created, updatedAt := updated)
      ensures dirMap == if id in old(dirMap) then old(dirMap) else old(dirMap)[id := d]
      ensures stored == dirMap[id]
      ensures forall x | x in dirMap :: Contents()[x] == if dirMap[x] == d then d.Value() else old(Contents())[x]
    {
      d.Stamp(id, created, updated);
      if id !in dirMap {
        dirMap := dirMap[id := d];
      }
      if d in old(dirMap).Values {
        ghost var key :| key in old(dirMap) && old(dirMap)[key] == d;
        assert dirMap[key] == d;
      }
      stored := dirMap[id];
    }

    method CreateRoot(d: DirectoryRecord, id: DirectoryID, created: Time, updated: Time)
      returns (r: Result<DirectoryRecord, StorageError>)
      requires Valid()
      modifies this`dirMap, d
      ensures Valid() <==> old(d.parent).Some? || d !in old(dirMap).Values || old(d.id) == id
      ensures old(d.parent).Some? ==>
                && r == Err(RootWithParentDirectory) && dirMap == old(dirMap)
                && Contents() == old(Contents()) && d.Value() == old(d.Value())
      ensures old(d.parent).None? ==>
                && id in dirMap && r == Ok(dirMap[id])
                && d.Value() == old(d.Value()).(id := id, createdAt := created, updatedAt := updated)
                && dirMap == (if id in old(dirMap) then old(dirMap) else old(dirMap)[id := d])
                && (forall x | x in dirMap :: Contents()[x] == if dirMap[x] == d then d.Value() else old(Contents())[x])
    {
      if d.parent.Some? {
        return Err(RootWithParentDirectory);
      }
      var stored := LoadOrStore(d, id, created, updated);
      r := Ok(stored);
    }

    /**
     Does not look for the parent: the forest stays well formed exactly when the caller has
     (`Lifecycle.InsertNeedsParent`).
     */
    method CreateDirectory(d: DirectoryRecord, id: DirectoryID, created: Time, updated: Time)
      returns (r: Result<DirectoryRecord, StorageError>)
      requires Valid()
      modifies this`dirMap, d
      ensures Valid() <==> old(d.parent).None? || d !in old(dirMap).Values || old(d.id) == id
      ensures old(d.parent).None? ==>
                && r == Err(DirectoryWithoutParent) && dirMap == old(dirMap)
                && Contents() == old(Contents()) && d.Value() == old(d.Value())
      ensures old(d.parent).Some? ==>
                && id in dirMap && r == Ok(dirMap[id])
                && d.Value() == old(d.Value()).(id := id, createdAt := created, updatedAt := updated)
                && dirMap == (if id in old(dirMap) then old(dirMap) else old(dirMap)[id := d])
                && (forall x | x in dirMap :: Contents()[x] == if dirMap[x] == d then d.Value() else old(Contents())[x])
    {
      if d.parent.None? {
        return Err(DirectoryWithoutParent);
      }
      var stored := LoadOrStore(d, id, created, updated);
      r := Ok(stored);
    }

    /** Stores `d` under its own id, whether or not that id was known. */
    method UpdateDirectory(d: DirectoryRecord, now: Time)
      requires Valid()
      modifies this`dirMap, d
      ensures Valid()
      ensures d.Value() == old(d.Value()).(updatedAt := now)
      ensures dirMap == old(dirMap)[d.id := d]
      ensures Contents() == old(Contents())[d.id := d.Value()]
    {
      if d.metadata.None? {
        d.metadata := Some(map[]);
      }
      d.updatedAt := now;
      dirMap := dirMap[d.id := d];
    }

    method GetDirectory(id: DirectoryID, options: seq<StorageOption>) returns (r: Result<DirectoryRecord, StorageError>)
      requires Valid()
      ensures r.Ok? <==> Visible(Contents(), Built(options).withDeleted, id)
      ensures r.Ok? ==> r.value == dirMap[id]
      ensures r.Err? ==> r.error == DirectoryNotFound
    {
      if id !in dirMap {
        return Err(DirectoryNotFound);
      }
      var dir := dirMap[id];
      var opts := BuildOptions(options);
      if dir.deletedAt.Some? && !opts.withDeleted {
        return Err(DirectoryNotFound);
      }
      r := Ok(dir);
    }

    /** Fetches a directory and reads its fields. */
    method ReadDirectory(ghost f: Forest, id: DirectoryID, options: seq<StorageOption>)
      returns (r: Result<Directory, StorageError>)
      requires Valid() && f == Contents()
      ensures r.Ok? <==> Visible(f, Built(options).withDeleted, id)
      ensures r.Ok? ==> r.value == f[id]
      ensures r.Err? ==> r.error == DirectoryNotFound
    {
      var got := GetDirectory(id, options);
      if got.Err? {
        return Err(got.error);
      }
      r := Ok(got.value.Value());
    }

    /** Marks the directory and the first page of its live descendants. */
    method DeleteDirectory(id: DirectoryID, now: Time) returns (r: Result<seq<DirectoryRecord>, StorageError>)
      requires Valid() && WellFormed(Contents())
      modifies dirMap.Values
      ensures Valid() && dirMap == old(dirMap)
      ensures r.Ok? <==> old(Live(Contents(), id) && Contents()[id].parent.Some?)
      ensures r.Err? ==> r.error == DirectoryNotFound && Contents() == old(Contents())
      ensures r.Ok? ==>
                var below := old(FirstPageBelow(Contents(), id));
                && Contents() == MarkDeleted(old(Contents()), {id} + Elements(below), now)
                && AreRecordsOf(dirMap, [id] + below, r.value)
    {
      ghost var f := Contents();
      var got := GetDirectory(id, []);
      if got.Err? {
        return Err(got.error);
      }
      var dir := got.value;
      if dir.parent.None? {
        return Err(DirectoryNotFound);
      }
      var children := GetChildren(id, []);
      DefaultOptions();
      FirstPageIsLive(f, id);
      var affected := MarkAll(f, id, dir, children, now);
      r := Ok(affected);
    }

    /** Marks a directory, then its children. */
    method MarkAll(ghost f: Forest, id: DirectoryID, dir: DirectoryRecord, children: seq<DirectoryID>, now: Time)
      returns (affected: seq<DirectoryRecord>)
      requires Valid() && Contents() == f && id in dirMap && dirMap[id] == dir
      requires NoDuplicates(children) && forall i | 0 <= i < |children| :: Live(f, children[i]) && children[i] != id
      modifies dirMap.Values
      ensures Valid() && dirMap == old(dirMap)
      ensures Contents() == MarkDeleted(f, {id} + Elements(children), now)
      ensures AreRecordsOf(dirMap, [id] + children, affected)
    {
      assert AreRecordsOf(dirMap, [id], [dir]);
      MarkRecord(f, id, dir, now);
      var marked := MarkChildren(children, now);
      MarkTwice(f, {id}, Elements(children), now);
      RecordsConcat(dirMap, [id], [dir], children, marked);
      affected := [dir] + marked;
    }

    /** Fetches and marks the children of a deleted directory one by one. */
    method MarkChildren(children: seq<DirectoryID>, now: Time) returns (affected: seq<DirectoryRecord>)
      requires Valid() && NoDuplicates(children) && forall i | 0 <= i < |children| :: Live(Contents(), children[i])
      modifies dirMap.Values
      ensures Valid() && dirMap == old(dirMap)
      ensures Contents() == MarkDeleted(old(Contents()), Elements(children), now)
      ensures AreRecordsOf(dirMap, children, affected)
    {
      ghost var f := Contents();
      affected := [];
      for i := 0 to |children|
        invariant dirMap == old(dirMap) && Valid()
        invariant AreRecordsOf(dirMap, children[..i], affected)
        invariant Contents() == MarkDeleted(f, Elements(children[..i]), now)
      {
        assert Live(MarkDeleted(f, Elements(children[..i]), now), children[i]);
        var child := GetDirectory(children[i], []);
        MarkRecord(MarkDeleted(f, Elements(children[..i]), now), children[i], child.value, now);
        MarkOneMore(f, children, i, now);
        RecordsConcat(dirMap, children[..i], affected, [children[i]], [child.value]);
        affected := affected + [child.value];
      }
      assert children[..|children|] == children;
    }

    /** `child.DeletedAt = &deletedTime`. */
    method MarkRecord(ghost f: Forest, ghost id: DirectoryID, d: DirectoryRecord, now: Time)
      requires Valid() && Contents() == f && id in dirMap && dirMap[id] == d
      modifies d`deletedAt
      ensures Valid() && Contents() == MarkDeleted(f, {id}, now)
    {
      d.deletedAt := Some(now);
    }

    method ListRoots(options: seq<StorageOption>) returns (ids: seq<DirectoryID>)
      requires Valid() && WellFormed(Contents())
      ensures ids == PageOf(RootList(Contents(), Built(options).withDeleted), Built(options))
      ensures forall x :: x in ids <==>
                && x in Contents() && Contents()[x].parent.None?
                && (WithDeletedDirectories in options || Contents()[x].deletedAt.None?)
                && var o, older := Built(options), |OlderRoots(Contents(), Built(options).withDeleted, x)|;
                   o.GetPageOffset() <= older < o.GetPageOffset() + o.GetPageSize()
      ensures forall i, j | 0 <= i < j < |ids| :: Contents()[ids[i]].createdAt < Contents()[ids[j]].createdAt
    {
      ghost var f := Contents();
      var opts := BuildOptions(options);
      var roots := AllRoots(f, opts);
      ids := SortedPage(f, roots, Roots(f, opts.withDeleted), RootList(f, opts.withDeleted), opts);
      assert f == Contents();
      RootPageMeaning(f, opts);
    }

    /** All roots, in no particular order. */
    method AllRoots(ghost f: Forest, opts: Options) returns (roots: seq<Directory>)
      requires Valid() && f == Contents() && WellFormed(f)
      ensures Lists(f, roots, Roots(f, opts.withDeleted))
    {
      ghost var all := Roots(f, opts.withDeleted);
      roots := [];
      var rest := dirMap.Keys;
      while rest != {}
        invariant rest <= dirMap.Keys
        invariant Lists(f, roots, all - rest)
        decreases rest
      {
        var key :| key in rest;
        var dir := dirMap[key].Value();
        assert dir == f[key];
        RootsStep(f, opts.withDeleted, roots, rest, key);
        if (dir.deletedAt.None? || opts.withDeleted) && dir.parent.None? {
          roots := roots + [dir];
        }
        rest := rest - {key};
      }
      assert all - {} == all;
    }

    /** All descendants, in no particular order. */
    method AllChildren(ghost f: Forest, id: DirectoryID, opts: Options) returns (children: seq<Directory>)
      requires Valid() && f == Contents() && WellFormed(f)
      ensures Lists(f, children, Descendants(f, opts.withDeleted, id))
    {
      var childrenByParents: ChildIndex := map[];
      var rest := dirMap.Keys;
      while rest != {}
        invariant rest <= dirMap.Keys
        invariant Indexes(f, opts.withDeleted, childrenByParents, dirMap.Keys - rest)
        decreases rest
      {
        var key :| key in rest;
        var dir := dirMap[key].Value();
        IndexStep(f, opts.withDeleted, childrenByParents, dirMap.Keys - rest, key);
        assert dirMap.Keys - (rest - {key}) == dirMap.Keys - rest + {key};
        if !((dir.deletedAt.Some? && !opts.withDeleted) || dir.parent.None?) {
          var parent := dir.parent.value;
          childrenByParents := childrenByParents[parent := ChildrenAt(childrenByParents, parent) + [dir]];
        }
        rest := rest - {key};
      }
      assert dirMap.Keys - {} == f.Keys;
      children := ExpandChildren(f, opts.withDeleted, childrenByParents, id);
    }

    method GetChildren(id: DirectoryID, options: seq<StorageOption>) returns (ids: seq<DirectoryID>)
      requires Valid() && WellFormed(Contents())
      ensures ids == PageOf(DescendantList(Contents(), Built(options).withDeleted, id), Built(options))
    {
      ghost var f := Contents();
      var opts := BuildOptions(options);
      var children := AllChildren(f, id, opts);
      ghost var all := Descendants(f, opts.withDeleted, id);
      ids := SortedPage(f, children, all, DescendantList(f, opts.withDeleted, id), opts);
      assert f == Contents();
    }

    method GetParents(id: DirectoryID, options: seq<StorageOption>) returns (r: Result<seq<DirectoryID>, StorageError>)
      requires Valid() && WellFormed(Contents())
      ensures r.Ok? <==> WalkVisible(Contents(), Built(options).withDeleted, id)
      ensures r.Err? ==> r.error == DirectoryNotFound
      ensures r.Ok? ==>
                var chain := Ancestors(Contents(), id);
                r.value == PageOf(ApplySwaps(chain, parentSwaps(TimesOf(Contents(), chain))), Built(options))
    {
      var opts := BuildOptions(options);
      ghost var f := Contents();
      var walk := WalkUp(f, id, options);
      if walk.Err? {
        return Err(walk.error);
      }
      var page := SwappedPage(f, walk.value.0, walk.value.1, opts);
      r := Ok(page);
    }

    /** The loop of `GetParents`: the ids walked over and their directories. */
    method WalkUp(ghost f: Forest, id: DirectoryID, options: seq<StorageOption>)
      returns (r: Result<(seq<DirectoryID>, seq<Directory>), StorageError>)
      requires Valid() && f == Contents() && WellFormed(f)
      ensures WalkedUp(f, Built(options).withDeleted, id, r)
    {
      ghost var withDeleted := Built(options).withDeleted;
      var parentIDs: seq<DirectoryID> := [];
      var parents: seq<Directory> := [];
      var current := id;
      while true
        invariant Paired(f, id, current, parentIDs, parents)
        invariant Climbing(f, withDeleted, id, current, parentIDs)
        decreases if current in f then f[current].createdAt + 1 else 0
      {
        ghost var before := parents;
        var got := ReadDirectory(f, current, options);
        if got.Err? {
          ClimbFails(f, withDeleted, id, current, parentIDs);
          return Err(got.error);
        }
        var dir := got.value;
        if parentIDs != [] {
          parents := parents + [dir];
        }
        if dir.parent.None? {
          ClimbReturns(f, withDeleted, id, current, parentIDs, before);
          return Ok((parentIDs, parents));
        }
        PairedStep(f, id, current, parentIDs, before);
        ClimbStep(f, withDeleted, id, current, parentIDs);
        parentIDs := parentIDs + [dir.parent.value];
        current := dir.parent.value;
      }
    }

    /** The walk to `ancestor`. With `child == ancestor` a root's nil parent is dereferenced. */
    method GetParentsUntilAncestor(child: DirectoryID, ancestor: DirectoryID, options: seq<StorageOption>)
      returns (r: Result<seq<DirectoryID>, StorageError>)
      requires Valid() && WellFormed(Contents())
      ensures r.Ok? <==>
                && Visible(Contents(), Built(options).withDeleted, ancestor)
                && Under(Contents(), Built(options).withDeleted, ancestor, child)
      ensures r.Err? ==> r.error == UntilError(Contents(), Built(options).withDeleted, child, ancestor)
      ensures r.Ok? ==>
                var chain := ChainUntil(Contents(), true, child, ancestor);
                r.value == PageOf(ApplySwaps(chain, parentSwaps(TimesOf(Contents(), chain))), Built(options))
    {
      var opts := BuildOptions(options);
      ghost var f := Contents();
      var gotAncestor := ReadDirectory(f, ancestor, options);
      if gotAncestor.Err? {
        return Err(gotAncestor.error);
      }
      r := WalkedPage(f, child, ancestor, gotAncestor.value, options, opts);
      assert f == Contents();
    }

    /** Walks, sorts what was met, and slices a page. */
    method WalkedPage(ghost f: Forest, child: DirectoryID, ancestor: DirectoryID, ancestorDir: Directory,
                      options: seq<StorageOption>, opts: Options)
      returns (r: Result<seq<DirectoryID>, StorageError>)
      requires Valid() && f == Contents() && WellFormed(f) && opts == Built(options)
      requires Visible(f, opts.withDeleted, ancestor) && ancestorDir == f[ancestor]
      ensures r.Ok? <==> Under(f, opts.withDeleted, ancestor, child)
      ensures r.Err? ==> r.error == UntilError(f, opts.withDeleted, child, ancestor)
      ensures r.Ok? ==>
                var chain := ChainUntil(f, true, child, ancestor);
                r.value == PageOf(ApplySwaps(chain, parentSwaps(TimesOf(f, chain))), opts)
    {
      var walk := WalkUntil(f, child, ancestor, ancestorDir, options);
      if walk.Err? {
        return Err(walk.error);
      }
      var page := SwappedPage(f, walk.value.0, walk.value.1, opts);
      r := Ok(page);
    }

    /** The loop of `GetParentsUntilAncestor`: the ids walked over and their directories. */
    method WalkUntil(ghost f: Forest, child: DirectoryID, ancestor: DirectoryID, ancestorDir: Directory,
                     options: seq<StorageOption>)
      returns (r: Result<(seq<DirectoryID>, seq<Directory>), StorageError>)
      requires Valid() && f == Contents() && WellFormed(f)
      requires Visible(f, Built(options).withDeleted, ancestor) && ancestorDir == f[ancestor]
      ensures UntilWalked(f, Built(options).withDeleted, child, ancestor, r)
    {
      ghost var withDeleted := Built(options).withDeleted;
      var parentIDs: seq<DirectoryID> := [];
      var parents: seq<Directory> := [];
      var current := child;
      while true
        invariant Paired(f, child, current, parentIDs, parents)
        invariant ClimbingUntil(f, withDeleted, child, ancestor, current, parentIDs)
        decreases if current in f then f[current].createdAt + 1 else 0
      {
        ghost var before := parents;
        var got := ReadDirectory(f, current, options);
        if got.Err? {
          ClimbUntilStops(f, withDeleted, child, ancestor, current, parentIDs);
          return Err(got.error);
        }
        var dir := got.value;
        if parentIDs != [] {
          parents := parents + [dir];
        }
        if dir.parent.None? {
          ClimbUntilStops(f, withDeleted, child, ancestor, current, parentIDs);
          if dir.id != ancestor {
            return Err(DirectoryNotFound);
          }
          return Err(NilDereference);
        }
        PairedStep(f, child, current, parentIDs, before);
        ClimbUntilStep(f, withDeleted, child, ancestor, current, parentIDs);
        if dir.parent.value == ancestor {
          ClimbUntilEnds(f, withDeleted, child, ancestor, current, parentIDs, parents);
        }
        parentIDs := parentIDs + [dir.parent.value];
        current := dir.parent.value;
        if current == ancestor {
          parents := parents + [ancestorDir];
          return Ok((parentIDs, parents));
        }
      }
    }

    /** Sorts `ids` by the swaps that the creation times of `dirs` call for, and slices a page. */
    method SwappedPage(ghost f: Forest, ids: seq<DirectoryID>, dirs: seq<Directory>, opts: Options)
      returns (page: seq<DirectoryID>)
      requires |ids| == |dirs| && Match(f, ids, dirs)
      ensures page == PageOf(ApplySwaps(ids, parentSwaps(TimesOf(f, ids))), opts)
    {
      ApplySwapsPermutes(ids, parentSwaps(TimesOf(f, ids)));
      assert CreationTimes(dirs) == TimesOf(f, ids);
      if opts.GetPageOffset() > |dirs| {
        return [];
      }
      var sorted := ApplySwaps(ids, parentSwaps(CreationTimes(dirs)));
      var limit := opts.GetPageOffset() + opts.GetPageSize();
      if limit > |sorted| {
        limit := |sorted|;
      }
      page := sorted[opts.GetPageOffset()..limit];
    }
  }

  lemma RootsStep(f: Forest, withDeleted: bool, roots: seq<Directory>, rest: set<DirectoryID>, x: DirectoryID)
    requires WellFormed(f) && x in rest && rest <= f.Keys && Lists(f, roots, Roots(f, withDeleted) - rest)
    ensures x in Roots(f, withDeleted) ==> Lists(f, roots + [f[x]], Roots(f, withDeleted) - (rest - {x}))
    ensures x !in Roots(f, withDeleted) ==> Lists(f, roots, Roots(f, withDeleted) - (rest - {x}))
  {
    var s := Roots(f, withDeleted);
    if x in s {
      ListsOneMore(f, roots, s - rest, x);
      assert s - (rest - {x}) == s - rest + {x};
    } else {
      assert s - (rest - {x}) == s - rest;
    }
  }

  lemma DefaultOptions()
    ensures !Built([]).withDeleted
  {
  }

  lemma FirstPageIsLive(f: Forest, id: DirectoryID)
    requires WellFormed(f) && id in f
    ensures NoDuplicates(FirstPageBelow(f, id))
    ensures forall i | 0 <= i < |FirstPageBelow(f, id)| ::
              Live(f, FirstPageBelow(f, id)[i]) && FirstPageBelow(f, id)[i] != id
  {
    var all := ByCreation(f, Descendants(f, false, id));
    ByCreationOrdered(f, Descendants(f, false, id));
    ByCreationElements(f, Descendants(f, false, id));
    FirstPage(all);
    forall i | 0 <= i < |FirstPageBelow(f, id)|
      ensures Live(f, FirstPageBelow(f, id)[i]) && FirstPageBelow(f, id)[i] != id
    {
      assert all[i] in Elements(all);
      UnderIsYounger(f, false, id, all[i]);
    }
  }

  /** `records` are those stored under `ids`, in that order. */
  ghost predicate AreRecordsOf(m: map<DirectoryID, DirectoryRecord>, ids: seq<DirectoryID>,
                               records: seq<DirectoryRecord>) {
    |records| == |ids| && forall i | 0 <= i < |ids| :: ids[i] in m && records[i] == m[ids[i]]
  }

  lemma RecordsConcat(m: map<DirectoryID, DirectoryRecord>, ids: seq<DirectoryID>, rs: seq<DirectoryRecord>,
                      moreIds: seq<DirectoryID>, more: seq<DirectoryRecord>)
    requires AreRecordsOf(m, ids, rs) && AreRecordsOf(m, moreIds, more)
    ensures AreRecordsOf(m, ids + moreIds, rs + more)
  {
  }

  lemma MarkOneMore(f: Forest, ids: seq<DirectoryID>, i: nat, now: Time)
    requires i < |ids|
    ensures ids[..i + 1] == ids[..i] + [ids[i]]
    ensures MarkDeleted(MarkDeleted(f, Elements(ids[..i]), now), {ids[i]}, now) ==
            MarkDeleted(f, Elements(ids[..i + 1]), now)
  {
    ElementsConcat(ids[..i], [ids[i]]);
    MarkTwice(f, Elements(ids[..i]), {ids[i]}, now);
  }

  lemma MarkTwice(f: Forest, s: set<DirectoryID>, t: set<DirectoryID>, now: Time)
    ensures MarkDeleted(MarkDeleted(f, s, now), t, now) == MarkDeleted(f, s + t, now)
  {
  }

  /** Sorts directories by creation time and copies the ids of one page. */
  method SortedPage(ghost f: Forest, ds: seq<Directory>, ghost s: set<DirectoryID>, ghost list: seq<DirectoryID>,
                    opts: Options)
    returns (ids: seq<DirectoryID>)
    requires WellFormed(f) && Lists(f, ds, s) && s <= f.Keys && list == ByCreation(f, s)
    ensures ids == PageOf(list, opts)
  {
    SortListsByCreation(f, ds, s);
    SortContract(ds);
    var offset := opts.GetPageOffset();
    if offset > |ds| {
      return [];
    }
    var sorted := SortByCreation(ds);
    var limit := offset + opts.GetPageSize();
    if limit > |sorted| {
      limit := |sorted|;
    }
    SliceIsPage(IdsOf(sorted), opts);
    ids := CopyIds(sorted, offset, limit);
  }

  lemma SliceIsPage(ids: seq<DirectoryID>, o: Options)
    ensures o.GetPageOffset() <= |ids| ==>
              PageOf(ids, o) == ids[o.GetPageOffset()..Min(o.GetPageOffset() + o.GetPageSize(), |ids|)]
    ensures o.GetPageOffset() > |ids| ==> PageOf(ids, o) == []
  {
  }

  method CopyIds(ds: seq<Directory>, offset: nat, limit: nat) returns (ids: seq<DirectoryID>)
    requires offset <= limit <= |ds|
    ensures ids == IdsOf(ds)[offset..limit]
  {
    ids := [];
    for i := 0 to limit - offset
      invariant ids == IdsOf(ds)[offset..offset + i]
    {
      ids := ids + [ds[offset + i].id];
    }
  }
}
