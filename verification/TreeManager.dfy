/** The write handlers of the HTTP server, without decoding and encoding. */
module TreeManager {
  import opened Wrappers
  import opened Directories
  import opened Lifecycle
  import opened Ordering
  import opened Records
  import opened ServerRuns
  import opened StoreNotifier

  const CREATED := 201
  const OK := 200
  const BAD_REQUEST := 400
  const NOT_FOUND := 404
  const INTERNAL_SERVER_ERROR := 500

  /** No status: the handler reads through a nil pointer. */
  const PANICKED := 0

  class Server {
    const store: NotifyingStore

    constructor (store: NotifyingStore)
      ensures this.store == store
    {
      this.store := store;
    }

    /** The server always builds its store with the retrying wrapper. */
    ghost predicate Valid()
      reads store, store.db
    {
      store.hasWrapper && store.Valid()
    }

    ghost function State(): ServerState
      reads store, store.db
    {
      ServerState(store.db.directories, store.log)
    }

    method CreateRootDirectory(name: string, metadata: Option<Metadata>, id: DirectoryID, now: Time, delivered: bool)
      returns (status: int)
      requires Valid() && id !in State().store && Newer(State().store, now)
      modifies store.db`directories, store`log
      ensures Valid()
      ensures store.db.readOnly ==> status == INTERNAL_SERVER_ERROR && State() == old(State())
      ensures !store.db.readOnly ==>
                var served := Serve(old(State()), Label(CreateRoot(id, name, MetadataOr(metadata)), now));
                && status == (if delivered then CREATED else INTERNAL_SERVER_ERROR)
                && State() == (if delivered then served else served.(log := old(State()).log))
      ensures !store.db.readOnly ==>
                var row := Directory(id, name, if metadata.Some? then metadata.value else map[], None, now, now, None);
                && State().store == old(State()).store[id := row]
                && State().log == old(State()).log + (if delivered then [Event(CreateEvent, row)] else [])
    {
      var d := new DirectoryRecord(name, metadata, None);
      var created := store.CreateRoot(d, id, now, delivered);
      status := if created.Done? then CREATED else INTERNAL_SERVER_ERROR;
    }

    /** Looks the parent up, which may fail for want of an answer, then inserts the child. */
    method CreateDirectory(parent: DirectoryID, name: string, metadata: Option<Metadata>, id: DirectoryID, now: Time,
                           answered: bool, delivered: bool)
      returns (status: int)
      requires Valid() && id !in State().store && Newer(State().store, now)
      modifies store.db`directories, store`log
      ensures Valid()
      ensures status == BAD_REQUEST <==> answered && !Live(old(State()).store, parent)
      ensures !answered || status == BAD_REQUEST || store.db.readOnly ==> State() == old(State())
      ensures !answered || (store.db.readOnly && status != BAD_REQUEST) ==> status == INTERNAL_SERVER_ERROR
      ensures answered && !store.db.readOnly && Live(old(State()).store, parent) ==>
                var served := Serve(old(State()), Label(Create(id, parent, name, MetadataOr(metadata)), now));
                && status == (if delivered then CREATED else INTERNAL_SERVER_ERROR)
                && State() == (if delivered then served else served.(log := old(State()).log))
      ensures answered && !store.db.readOnly && Live(old(State()).store, parent) ==>
                var row :=
                  Directory(id, name, if metadata.Some? then metadata.value else map[], Some(parent), now, now, None);
                && State().store == old(State()).store[id := row]
                && State().log == old(State()).log + (if delivered then [Event(CreateEvent, row)] else [])
    {
      if !answered {
        return INTERNAL_SERVER_ERROR;
      }
      var found := store.db.GetDirectory(parent, []);
      if found.Err? {
        return BAD_REQUEST;
      }
      var d := new DirectoryRecord(name, metadata, Some(found.value.id));
      var created := store.CreateDirectory(d, id, now, delivered);
      status := if created.Done? then CREATED else INTERNAL_SERVER_ERROR;
    }

    /**
     Fetches the directory, changes the fields the request names, and writes it back. Only a lookup that finds
     nothing is handled: one without an answer leaves a nil directory, which is read unless read-only mode
     refuses the write first.
     */
    method UpdateDirectory(id: DirectoryID, newName: Option<string>, newMetadata: Option<Metadata>, now: Time,
                           answered: bool, delivered: bool)
      returns (status: int)
      requires Valid()
      modifies store.db`directories, store`log
      ensures Valid()
      ensures status == NOT_FOUND <==> answered && !Live(old(State()).store, id)
      ensures !answered || status == NOT_FOUND || store.db.readOnly ==> State() == old(State())
      ensures status == PANICKED <==>
                !answered && !(store.db.readOnly && (newName.None? || newName.value == "") && newMetadata.None?)
      ensures store.db.readOnly && status !in {NOT_FOUND, PANICKED} ==> status == INTERNAL_SERVER_ERROR
      ensures answered && !store.db.readOnly && Live(old(State()).store, id) ==>
                var served := Serve(old(State()), Label(Update(id, newName, newMetadata), now));
                && status == (if delivered then OK else INTERNAL_SERVER_ERROR)
                && State() == (if delivered then served else served.(log := old(State()).log))
      ensures answered && !store.db.readOnly && Live(old(State()).store, id) ==>
                && id in State().store
                && var was, row := old(State()).store[id], State().store[id];
                   && row.name == (if newName.Some? && newName.value != "" then newName.value else was.name)
                   && row.metadata == (if newMetadata.Some? then newMetadata.value else was.metadata)
                   && row == was.(name := row.name, metadata := row.metadata, updatedAt := now)
                   && State().store == old(State()).store[id := row]
                   && State().log == old(State()).log + (if delivered then [Event(UpdateEvent, row)] else [])
    {
      if !answered {
        var named := newName.Some? && newName.value != "";
        return if named || newMetadata.Some? || !store.db.readOnly then PANICKED else INTERNAL_SERVER_ERROR;
      }
      var found := store.db.GetDirectory(id, []);
      if found.Err? {
        return NOT_FOUND;
      }
      var d := new DirectoryRecord.Of(found.value);
      if newName.Some? && newName.value != "" {
        d.name := newName.value;
      }
      if newMetadata.Some? {
        d.metadata := newMetadata;
      }
      var updated := store.UpdateDirectory(d, now, delivered);
      status := if updated.Done? then OK else INTERNAL_SERVER_ERROR;
    }

    /** Answers with the affected ids. */
    method DeleteDirectory(id: DirectoryID, now: Time, delivered: nat -> bool)
      returns (status: int, affected: seq<DirectoryID>)
      requires Valid()
      modifies store.db`directories, store`log
      ensures Valid()
      ensures status == NOT_FOUND <==> DeleteSet(old(State()).store, id) == {}
      ensures status == NOT_FOUND ==> State() == old(State())
      ensures status != NOT_FOUND ==>
                && NoDuplicates(affected) && Elements(affected) == DeleteSet(old(State()).store, id)
                && var served := Serve(old(State()), Label(Delete(id, affected), now));
                   State() == served.(log := State().log)
      ensures status == OK ==> State() == Serve(old(State()), Label(Delete(id, affected), now))
      ensures status == INTERNAL_SERVER_ERROR ==>
                exists k :: FailsAt(delivered, |affected|, k) &&
                            Appended(old(State()).log, State().log, DeleteEvents(old(State()).store, affected, now), k)
      ensures status in {OK, NOT_FOUND, INTERNAL_SERVER_ERROR}
    {
      ghost var f := store.db.directories;
      var deleted := store.DeleteDirectory(id, now, delivered);
      affected := [];
      if deleted.Failed? {
        assert store.db.directories == f;
        return NOT_FOUND, affected;
      }
      DeleteSetIsLive(f, id);
      ListedDeletions(f, DeleteSet(f, id), now, deleted.value);
      affected := CopyIds(deleted.value);
      status := if deleted.Done? then OK else INTERNAL_SERVER_ERROR;
    }

    method CopyIds(ds: seq<Directory>) returns (ids: seq<DirectoryID>)
      ensures ids == IdsOf(ds)
    {
      ids := [];
      for i := 0 to |ds|
        invariant ids == IdsOf(ds)[..i]
      {
        ids := ids + [ds[i].id];
      }
    }
  }
}
