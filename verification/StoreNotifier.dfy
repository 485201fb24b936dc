/** The storage wrapper that publishes an event after every write. A notification succeeds or fails as a whole. */
module StoreNotifier {
  import opened Wrappers
  import opened Directories
  import opened Lifecycle
  import opened Ordering
  import opened Storage
  import opened Records
  import opened CrdbDriver
  import opened ServerRuns

  /**
   A write may fail before anything is stored, or be stored without all its notifications. A store built
   without a wrapper calls a nil function once the write is stored.
   */
  datatype WriteResult<T> = Done(value: T) | Failed(error: StorageError) | NotifyFailed(value: T) | NilWrapper

  function DeletionsOf(ds: seq<Directory>): seq<Event> {
    seq(|ds|, i requires 0 <= i < |ds| => Event(DeleteEvent, ds[i]))
  }

  /** Of `events`, exactly the first `k` have been added to `before`. */
  ghost predicate Appended(before: seq<Event>, after: seq<Event>, events: seq<Event>, k: int) {
    0 <= k <= |events| && after == before + events[..k]
  }

  /** The first `k` of `n` notifications were delivered and the next one was not. */
  ghost predicate FailsAt(delivered: nat -> bool, n: nat, k: int) {
    0 <= k < n && !delivered(k) && forall i: nat | i < k :: delivered(i)
  }

  /** The events of the rows that the delete query returned are those of its ids, in the same order. */
  lemma {:induction false} DeletionsAreDeleteEvents(f: Forest, s: set<DirectoryID>, now: Time, ds: seq<Directory>)
    requires WellFormed(f) && s <= f.Keys
    requires forall i | 0 <= i < |ds| :: ds[i].id in s && ds[i] == f[ds[i].id].(deletedAt := Some(now))
    ensures DeletionsOf(ds) == DeleteEvents(f, IdsOf(ds), now)
    decreases |ds|
  {
    if ds != [] {
      var n := |ds| - 1;
      assert IdsOf(ds)[..n] == IdsOf(ds[..n]);
      DeletionsAreDeleteEvents(f, s, now, ds[..n]);
      assert DeletionsOf(ds) == DeletionsOf(ds[..n]) + [Event(DeleteEvent, ds[n])];
    }
  }

  lemma ListedDeletions(f: Forest, s: set<DirectoryID>, now: Time, ds: seq<Directory>)
    requires WellFormed(f) && s <= f.Keys && (forall x | x in s :: Live(f, x)) && Lists(MarkDeleted(f, s, now), ds, s)
    ensures DeletionsOf(ds) == DeleteEvents(f, IdsOf(ds), now)
    ensures NoDuplicates(IdsOf(ds)) && Elements(IdsOf(ds)) == s
  {
    MarkKeeps(f, s, now);
    ListsElements(MarkDeleted(f, s, now), ds, s);
    forall i | 0 <= i < |ds|
      ensures ds[i].id in s && ds[i] == f[ds[i].id].(deletedAt := Some(now))
    {
      assert ds[i] in ds;
    }
    DeletionsAreDeleteEvents(f, s, now, ds);
  }

  class NotifyingStore {
    const db: Driver
    const hasWrapper: bool
    var log: seq<Event>

    constructor (db: Driver, hasWrapper: bool)
      ensures this.db == db && this.hasWrapper == hasWrapper && log == []
    {
      this.db := db;
      this.hasWrapper := hasWrapper;
      this.log := [];
    }

    ghost predicate Valid()
      reads this, db
    {
      db.Valid()
    }

    method CreateRoot(d: DirectoryRecord, id: DirectoryID, now: Time, delivered: bool)
      returns (r: WriteResult<DirectoryRecord>)
      requires Valid() && id !in db.directories && Newer(db.directories, now)
      modifies db`directories, this`log, d
      ensures Valid()
      ensures r.Failed? <==> db.readOnly || old(d.parent).Some?
      ensures r.Failed? ==> r.error == (if db.readOnly then ReadOnly else RootWithParentDirectory)
      ensures r.Failed? ==> db.directories == old(db.directories) && log == old(log)
      ensures !r.Failed? ==>
                && d.Value() == old(d.Value()).(id := id, createdAt := now, updatedAt := now)
                && db.directories ==
                   old(db.directories)[id :=
                     Directory(id, old(d.name), old(MetadataOr(d.metadata)), None, now, now, None)]
                && r == (if !hasWrapper then NilWrapper else if delivered then Done(d) else NotifyFailed(d))
                && log == (if hasWrapper && delivered then old(log) + [Event(CreateEvent, d.Value())] else old(log))
    {
      var created := db.CreateRoot(d, id, now);
      if created.Err? {
        return Failed(created.error);
      }
      if !hasWrapper {
        return NilWrapper;
      }
      if !delivered {
        return NotifyFailed(d);
      }
      log := log + [Event(CreateEvent, d.Value())];
      r := Done(d);
    }

    method CreateDirectory(d: DirectoryRecord, id: DirectoryID, now: Time, delivered: bool)
      returns (r: WriteResult<DirectoryRecord>)
      requires Valid() && id !in db.directories && Newer(db.directories, now)
      modifies db`directories, this`log, d
      ensures Valid()
      ensures r.Failed? <==> db.readOnly || old(d.parent).None? || old(d.parent).value !in old(db.directories)
      ensures r.Failed? ==>
                r.error == (if db.readOnly then ReadOnly
                            else if old(d.parent).None? then DirectoryWithoutParent else QueryFailed)
      ensures r.Failed? ==> db.directories == old(db.directories) && log == old(log)
      ensures !r.Failed? ==>
                && d.Value() == old(d.Value()).(id := id, createdAt := now, updatedAt := now)
                && db.directories ==
                   old(db.directories)[id :=
                     Directory(id, old(d.name), old(MetadataOr(d.metadata)), old(d.parent), now, now, None)]
                && r == (if !hasWrapper then NilWrapper else if delivered then Done(d) else NotifyFailed(d))
                && log == (if hasWrapper && delivered then old(log) + [Event(CreateEvent, d.Value())] else old(log))
    {
      var created := db.CreateDirectory(d, id, now);
      if created.Err? {
        return Failed(created.error);
      }
      if !hasWrapper {
        return NilWrapper;
      }
      if !delivered {
        return NotifyFailed(d);
      }
      log := log + [Event(CreateEvent, d.Value())];
      r := Done(d);
    }

    method UpdateDirectory(d: DirectoryRecord, now: Time, delivered: bool) returns (r: WriteResult<()>)
      requires Valid()
      modifies db`directories, this`log, d
      ensures Valid()
      ensures r.Failed? <==> db.readOnly || old(d.id) !in old(db.directories)
      ensures r.Failed? ==> r.error == (if db.readOnly then ReadOnly else QueryFailed)
      ensures r.Failed? ==> db.directories == old(db.directories) && log == old(log)
      ensures !r.Failed? ==>
                && d.Value() == old(d.Value()).(updatedAt := now)
                && db.directories == old(db.directories)[d.id :=
                     old(db.directories)[d.id].(name := d.name, metadata := MetadataOr(d.metadata), updatedAt := now)]
                && r == (if !hasWrapper then NilWrapper else if delivered then Done(()) else NotifyFailed(()))
                && log == (if hasWrapper && delivered then old(log) + [Event(UpdateEvent, d.Value())] else old(log))
    {
      var updated := db.UpdateDirectory(d, now);
      if updated.Err? {
        return Failed(updated.error);
      }
      if !hasWrapper {
        return NilWrapper;
      }
      if !delivered {
        return NotifyFailed(());
      }
      log := log + [Event(UpdateEvent, d.Value())];
      r := Done(());
    }

    /** Publishes one event per affected row and stops at the first notification that fails. */
    method DeleteDirectory(id: DirectoryID, now: Time, delivered: nat -> bool) returns (r: WriteResult<seq<Directory>>)
      requires Valid()
      modifies db`directories, this`log
      ensures Valid()
      ensures db.directories == MarkDeleted(old(db.directories), DeleteSet(old(db.directories), id), now)
      ensures r.Failed? <==> DeleteSet(old(db.directories), id) == {}
      ensures r.Failed? ==> r.error == DirectoryNotFound && log == old(log)
      ensures r.NilWrapper? <==> !hasWrapper && DeleteSet(old(db.directories), id) != {}
      ensures r.NilWrapper? ==> log == old(log)
      ensures r.Done? || r.NotifyFailed? ==> Lists(db.directories, r.value, DeleteSet(old(db.directories), id))
      ensures r.Done? ==> log == old(log) + DeletionsOf(r.value) && forall i: nat | i < |r.value| :: delivered(i)
      ensures r.NotifyFailed? ==>
                exists k :: FailsAt(delivered, |r.value|, k) && Appended(old(log), log, DeletionsOf(r.value), k)
    {
      var deleted := db.DeleteDirectory(id, now);
      if deleted.Err? {
        return Failed(deleted.error);
      }
      if !hasWrapper {
        return NilWrapper;
      }
      var sent := PublishDeletes(deleted.value, delivered);
      r := if sent then Done(deleted.value) else NotifyFailed(deleted.value);
    }

    /** The loop over the affected rows. */
    method PublishDeletes(affected: seq<Directory>, delivered: nat -> bool) returns (sent: bool)
      modifies this`log
      ensures sent ==> log == old(log) + DeletionsOf(affected) && forall i: nat | i < |affected| :: delivered(i)
      ensures !sent ==>
                exists k :: FailsAt(delivered, |affected|, k) && Appended(old(log), log, DeletionsOf(affected), k)
    {
      for i := 0 to |affected|
        invariant Appended(old(log), log, DeletionsOf(affected), i)
        invariant forall j: nat | j < i :: delivered(j)
      {
        if !delivered(i) {
          assert FailsAt(delivered, |affected|, i);
          return false;
        }
        log := log + [Event(DeleteEvent, affected[i])];
      }
      sent := true;
    }
  }
}
