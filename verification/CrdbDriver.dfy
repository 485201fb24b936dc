/** The CockroachDB storage driver over its `directories` table. */
module CrdbDriver {
  import opened Wrappers
  import opened Directories
  import opened Lifecycle
  import opened Ordering
  import opened Storage
  import opened RootPages
  import opened Records
  import opened RecursiveQuery

  /** The rows of a query seeded with `start`, none if the seed is hidden. */
  ghost function SeededRows(f: Forest, q: Query, start: DirectoryID): seq<DirectoryID> {
    if Visible(f, q.withDeleted, start) then QueryResult(f, q, start) else []
  }

  /** The children rows after the start row: visible descendants, level by level. */
  ghost function LevelList(f: Forest, withDeleted: bool, a: DirectoryID): seq<DirectoryID> {
    Rows(f, Children(withDeleted), {a}, {a})
  }

  class Driver {
    var directories: Forest
    const readOnly: bool

    constructor (readOnly: bool)
      ensures Valid() && directories == map[] && this.readOnly == readOnly
    {
      this.directories := map[];
      this.readOnly := readOnly;
    }

    ghost predicate Valid()
      reads this
    {
      WellFormed(directories)
    }

    method CreateRoot(d: DirectoryRecord, id: DirectoryID, now: Time) returns (r: Result<DirectoryRecord, StorageError>)
      requires Valid() && id !in directories && Newer(directories, now)
      modifies this`directories, d
      ensures Valid()
      ensures r.Err? <==> readOnly || old(d.parent).Some?
      ensures r.Err? ==> r.error == (if readOnly then ReadOnly else RootWithParentDirectory)
      ensures readOnly || r.Err? ==> directories == old(directories) && d.Value() == old(d.Value())
      ensures r.Ok? ==>
                && r.value == d
                && directories ==
                   old(directories)[id :=
                     Directory(id, old(d.name), old(MetadataOr(d.metadata)), None, now, now, None)]
                && d.Value() == old(d.Value()).(id := id, createdAt := now, updatedAt := now)
    {
      if readOnly {
        return Err(ReadOnly);
      }
      if d.parent.Some? {
        return Err(RootWithParentDirectory);
      }
      if d.metadata.None? {
        d.metadata := Some(map[]);
      }
      assert d.Value() == old(d.Value());
      var row := NewRow(id, d.name, d.metadata.value, None, now);
      InsertKeeps(directories, row);
      directories := directories[id := row];
      d.id, d.createdAt, d.updatedAt := id, now, now;
      r := Ok(d);
    }

    /** The foreign key on `parent_id` rejects an unknown parent, but not a deleted one. */
    method CreateDirectory(d: DirectoryRecord, id: DirectoryID, now: Time)
      returns (r: Result<DirectoryRecord, StorageError>)
      requires Valid() && id !in directories && Newer(directories, now)
      modifies this`directories, d
      ensures Valid()
      ensures r.Err? <==> readOnly || old(d.parent).None? || old(d.parent).value !in old(directories)
      ensures r.Err? ==>
                r.error == (if readOnly then ReadOnly
                            else if old(d.parent).None? then DirectoryWithoutParent else QueryFailed)
      ensures readOnly || r.Err? ==> directories == old(directories) && d.Value() == old(d.Value())
      ensures r.Ok? ==>
                && r.value == d
                && directories ==
                   old(directories)[id :=
                     Directory(id, old(d.name), old(MetadataOr(d.metadata)), old(d.parent), now, now, None)]
                && d.Value() == old(d.Value()).(id := id, createdAt := now, updatedAt := now)
    {
      if readOnly {
        return Err(ReadOnly);
      }
      if d.parent.None? {
        return Err(DirectoryWithoutParent);
      }
      if d.metadata.None? {
        d.metadata := Some(map[]);
      }
      assert d.Value() == old(d.Value());
      if d.parent.value !in directories {
        return Err(QueryFailed);
      }
      var row := NewRow(id, d.name, d.metadata.value, d.parent, now);
      InsertKeeps(directories, row);
      directories := directories[id := row];
      d.id, d.createdAt, d.updatedAt := id, now, now;
      r := Ok(d);
    }

    /** Writes name and metadata of the row with the id of `d`, deleted or not, and no other column. */
    method UpdateDirectory(d: DirectoryRecord, now: Time) returns (r: Result<(), StorageError>)
      requires Valid()
      modifies this`directories, d
      ensures Valid()
      ensures r.Ok? <==> !readOnly && old(d.id) in old(directories)
      ensures r.Err? ==> r.error == (if readOnly then ReadOnly else QueryFailed)
      ensures readOnly || r.Err? ==> directories == old(directories) && d.Value() == old(d.Value())
      ensures r.Ok? ==>
                && d.Value() == old(d.Value()).(updatedAt := now)
                && directories ==
                   old(directories)[d.id := old(directories)[d.id].(
                     name := d.name, metadata := MetadataOr(d.metadata), updatedAt := now)]
    {
      if readOnly {
        return Err(ReadOnly);
      }
      if d.metadata.None? {
        d.metadata := Some(map[]);
      }
      assert d.Value() == old(d.Value());
      if d.id !in directories {
        return Err(QueryFailed);
      }
      UpdateKeeps(directories, d.id, d.name, d.metadata.value, now);
      directories := directories[d.id := UpdatedRow(directories[d.id], d.name, d.metadata.value, now)];
      d.updatedAt := now;
      r := Ok(());
    }

    /**
     Marks every live row the recursive query finds; the engine returns the marked rows in any order.
     Unlike the other writes it does not look at `readOnly`, so even a read-only driver changes its table
     whenever the directory is live and no root.
     */
    method DeleteDirectory(id: DirectoryID, now: Time) returns (r: Result<seq<Directory>, StorageError>)
      requires Valid()
      modifies this`directories
      ensures Valid()
      ensures directories == MarkDeleted(old(directories), DeleteSet(old(directories), id), now)
      ensures directories != old(directories) <==> old(Live(directories, id) && directories[id].parent.Some?)
      ensures r.Err? <==> DeleteSet(old(directories), id) == {}
      ensures r.Err? ==> r.error == DirectoryNotFound
      ensures r.Ok? ==> Lists(directories, r.value, DeleteSet(old(directories), id))
    {
      ghost var f := directories;
      DeleteChangesNothing(f, id, now);
      var found := QueryDeletable(id);
      DeleteSetIsLive(f, id);
      MarkKeeps(f, found, now);
      var matching := set x | x in found && directories[x].deletedAt.None?;
      assert matching == found;
      directories := MarkDeleted(directories, matching, now);
      var affected := ReturnRows(found);
      if |affected| == 0 {
        return Err(DirectoryNotFound);
      }
      r := Ok(affected);
    }

    /** The recursive part of the delete query. */
    method QueryDeletable(id: DirectoryID) returns (found: set<DirectoryID>)
      requires Valid()
      ensures found == DeleteSet(directories, id)
    {
      if id !in directories || directories[id].deletedAt.Some? || directories[id].parent.None? {
        return {};
      }
      var rows := Evaluate(directories, Children(false), id);
      ChildrenResult(directories, false, id);
      found := set x | x in rows;
      assert found == Elements(rows);
    }

    method ReturnRows(ids: set<DirectoryID>) returns (rows: seq<Directory>)
      requires Valid() && ids <= directories.Keys
      ensures Lists(directories, rows, ids)
      ensures |rows| == 0 <==> ids == {}
    {
      rows := [];
      var rest := ids;
      while rest != {}
        invariant rest <= ids
        invariant Lists(directories, rows, ids - rest)
        decreases rest
      {
        var x :| x in rest;
        ListsOneMore(directories, rows, ids - rest, x);
        assert ids - (rest - {x}) == ids - rest + {x};
        rows, rest := rows + [directories[x]], rest - {x};
      }
      assert ids - {} == ids;
      ListsCardinality(directories, rows, ids);
    }

    method GetDirectory(id: DirectoryID, options: seq<StorageOption>) returns (r: Result<Directory, StorageError>)
      ensures r.Ok? <==> Visible(directories, Built(options).withDeleted, id)
      ensures r.Ok? ==> r.value == directories[id]
      ensures r.Err? ==> r.error == DirectoryNotFound
    {
      var opts := BuildOptions(options);
      if id in directories && (opts.withDeleted || directories[id].deletedAt.None?) {
        return Ok(directories[id]);
      }
      r := Err(DirectoryNotFound);
    }

    method ListRoots(options: seq<StorageOption>) returns (ids: seq<DirectoryID>)
      requires Valid()
      ensures ids == PageOf(RootList(directories, Built(options).withDeleted), Built(options))
      ensures forall x :: x in ids <==>
                && x in directories && directories[x].parent.None?
                && (WithDeletedDirectories in options || directories[x].deletedAt.None?)
                && var o, older := Built(options), |OlderRoots(directories, Built(options).withDeleted, x)|;
                   o.GetPageOffset() <= older < o.GetPageOffset() + o.GetPageSize()
      ensures forall i, j | 0 <= i < j < |ids| :: directories[ids[i]].createdAt < directories[ids[j]].createdAt
    {
      var opts := BuildOptions(options);
      var matching := set x |
        x in directories && directories[x].parent.None? && (opts.withDeleted || directories[x].deletedAt.None?);
      assert matching == Roots(directories, opts.withDeleted);
      var rows := OrderByCreation(directories, matching);
      var limit := opts.GetPageSize();
      var offset := 0;
      if opts.GetPage() - 1 != 0 {
        offset := opts.GetPageOffset();
      }
      LimitOffsetIsPage(rows, opts, offset);
      ids := LimitOffset(rows, limit, offset);
      RootPageMeaning(directories, opts);
    }

    method GetParents(child: DirectoryID, options: seq<StorageOption>)
      returns (r: Result<seq<DirectoryID>, StorageError>)
      requires Valid()
      ensures r.Ok? <==> Visible(directories, Built(options).withDeleted, child)
      ensures r.Err? ==> r.error == DirectoryNotFound
      ensures r.Ok? ==> r.value == PageOf(Chain(directories, Built(options).withDeleted, child), Built(options))
    {
      var opts := BuildOptions(options);
      var parents := QueryRows(Parents(opts.withDeleted), child);
      if |parents| == 0 {
        return Err(DirectoryNotFound);
      }
      ParentsRows(directories, opts.withDeleted, child, {child});
      r := Ok(AfterHead(parents, opts));
    }

    /** Answers without a query when both ids are the same. */
    method GetParentsUntilAncestor(child: DirectoryID, ancestor: DirectoryID, options: seq<StorageOption>)
      returns (r: Result<seq<DirectoryID>, StorageError>)
      requires Valid()
      ensures r.Ok? <==> child == ancestor || Visible(directories, Built(options).withDeleted, child)
      ensures r.Err? ==> r.error == DirectoryNotFound
      ensures r.Ok? ==>
                r.value == PageOf(ChainUntil(directories, Built(options).withDeleted, child, ancestor), Built(options))
    {
      if child == ancestor {
        return Ok([]);
      }
      var opts := BuildOptions(options);
      var parents := QueryRows(ParentsUntil(opts.withDeleted, ancestor), child);
      if |parents| == 0 {
        return Err(DirectoryNotFound);
      }
      ParentsUntilRows(directories, opts.withDeleted, child, ancestor, {child});
      r := Ok(AfterHead(parents, opts));
    }

    method GetChildren(parent: DirectoryID, options: seq<StorageOption>)
      returns (r: Result<seq<DirectoryID>, StorageError>)
      requires Valid()
      ensures r.Ok? <==> Visible(directories, Built(options).withDeleted, parent)
      ensures r.Err? ==> r.error == DirectoryNotFound
      ensures r.Ok? ==> r.value == PageOf(LevelList(directories, Built(options).withDeleted, parent), Built(options))
    {
      var opts := BuildOptions(options);
      var children := QueryRows(Children(opts.withDeleted), parent);
      if |children| == 0 {
        return Err(DirectoryNotFound);
      }
      r := Ok(AfterHead(children, opts));
    }

    /** Runs a recursive query seeded with the row of `start`, if it is visible. */
    method QueryRows(q: Query, start: DirectoryID) returns (rows: seq<DirectoryID>)
      requires Valid()
      ensures rows == SeededRows(directories, q, start)
    {
      if !Visible(directories, q.withDeleted, start) {
        return [];
      }
      rows := Evaluate(directories, q, start);
    }
  }

  /** The page of `rows` after its first row, sliced as the driver slices it. */
  function AfterHead(rows: seq<DirectoryID>, o: Options): (page: seq<DirectoryID>)
    requires |rows| > 0
    ensures page == PageOf(rows[1..], o)
  {
    if o.GetPageOffset() + 1 >= |rows| then []
    else rows[o.GetPageOffset() + 1..Min(o.GetPageOffset() + 1 + o.GetPageSize(), |rows|)]
  }

  /** Leaving the offset out on page 1 changes nothing. */
  lemma LimitOffsetIsPage(rows: seq<DirectoryID>, o: Options, offset: nat)
    requires offset == if o.GetPage() - 1 != 0 then o.GetPageOffset() else 0
    ensures LimitOffset(rows, o.GetPageSize(), offset) == PageOf(rows, o)
  {
    if o.GetPage() == 1 {
      assert o.GetPageOffset() == 0;
    }
  }

  /** `LIMIT limit OFFSET offset`. */
  function LimitOffset(rows: seq<DirectoryID>, limit: nat, offset: nat): seq<DirectoryID> {
    var rest := rows[Min(offset, |rows|)..];
    rest[..Min(limit, |rest|)]
  }
}
