/**
 The write handlers cut at their store calls and notifications, over the CockroachDB driver: each piece takes exactly
 the step that `Interleaving.Perform` describes.
 */
module SplitHandlers {
  import opened Wrappers
  import opened Directories
  import opened Lifecycle
  import opened Ordering
  import opened Records
  import opened CrdbDriver
  import opened ServerRuns
  import opened StoreNotifier
  import opened Interleaving

  class SplitServer {
    const db: Driver

    /** What the handlers that are between two store calls remember. */
    var pending: seq<Pending>

    /** All events that have had to be sent, what each handler has still to send, and what has been sent. */
    var written: seq<Event>
    var unsent: seq<seq<nat>>
    var sent: seq<nat>

    constructor (db: Driver)
      ensures this.db == db && pending == [] && written == [] && unsent == [] && sent == []
    {
      this.db := db;
      this.pending, this.written, this.unsent, this.sent := [], [], [], [];
    }

    ghost predicate Valid()
      reads db
    {
      !db.readOnly && db.Valid()
    }

    ghost function State(): SystemState
      reads this, db
    {
      SystemState(db.directories, pending, written, unsent, sent)
    }

    /** A handler begins to send `events`. */
    method Begin(events: seq<Event>)
      modifies this`written, this`unsent
      ensures written == old(written) + events
      ensures unsent == old(unsent) + [Serials(|old(written)|, |events|)]
    {
      unsent := unsent + [Serials(|written|, |events|)];
      written := written + events;
    }

    method CreateRoot(id: DirectoryID, name: string, metadata: Metadata, now: Time)
      requires Valid() && StepEnabled(State(), InsertRoot(id, name, metadata), now)
      modifies db`directories, this`written, this`unsent
      ensures Valid() && State() == Perform(old(State()), InsertRoot(id, name, metadata), now)
      ensures
        var row := Directory(id, name, metadata, None, now, now, None);
        db.directories == old(db.directories)[id := row] && written == old(written) + [Event(CreateEvent, row)]
    {
      var d := new DirectoryRecord(name, Some(metadata), None);
      var _ := db.CreateRoot(d, id, now);
      Begin([Event(CreateEvent, d.Value())]);
    }

    /** The first call of the create handler. */
    method LookUpParent(parent: DirectoryID, name: string, metadata: Metadata, ghost now: Time)
      requires Valid() && StepEnabled(State(), FetchParent(parent, name, metadata), now)
      modifies this`pending
      ensures Valid() && State() == Perform(old(State()), FetchParent(parent, name, metadata), now)
      ensures pending == old(pending) + if parent in db.directories && db.directories[parent].deletedAt.None?
                                        then [PendingCreate(parent, name, metadata)] else []
    {
      var found := db.GetDirectory(parent, []);
      if found.Ok? {
        assert found.value.id == parent;
        pending := pending + [PendingCreate(found.value.id, name, metadata)];
      }
    }

    /** Its second call. */
    method CreateChild(which: nat, id: DirectoryID, now: Time)
      requires Valid() && StepEnabled(State(), InsertChild(which, id), now)
      modifies this`pending, db`directories, this`written, this`unsent
      ensures Valid() && State() == Perform(old(State()), InsertChild(which, id), now)
      ensures old(pending[which].parent in db.directories) ==>
                var p := old(pending)[which];
                var row := Directory(id, p.name, p.metadata, Some(p.parent), now, now, None);
                db.directories == old(db.directories)[id := row] && written == old(written) + [Event(CreateEvent, row)]
    {
      var p := pending[which];
      var d := new DirectoryRecord(p.name, Some(p.metadata), Some(p.parent));
      var created := db.CreateDirectory(d, id, now);
      pending := Without(pending, which);
      if created.Ok? {
        Begin([Event(CreateEvent, d.Value())]);
      }
    }

    /** The first call of the update handler. */
    method LookUpDirectory(id: DirectoryID, newName: Option<string>, newMetadata: Option<Metadata>, ghost now: Time)
      requires Valid() && StepEnabled(State(), FetchDirectory(id, newName, newMetadata), now)
      modifies this`pending
      ensures Valid() && State() == Perform(old(State()), FetchDirectory(id, newName, newMetadata), now)
      ensures pending == old(pending) + if id in db.directories && db.directories[id].deletedAt.None?
                                        then [PendingUpdate(db.directories[id], newName, newMetadata)] else []
    {
      var found := db.GetDirectory(id, []);
      if found.Ok? {
        pending := pending + [PendingUpdate(found.value, newName, newMetadata)];
      }
    }

    /** Its second call, with the fields that the request names changed in the fetched record. */
    method WriteBack(which: nat, now: Time)
      requires Valid() && StepEnabled(State(), WriteDirectory(which), now)
      modifies this`pending, db`directories, this`written, this`unsent
      ensures Valid() && State() == Perform(old(State()), WriteDirectory(which), now)
      ensures old(pending[which].fetched.id in db.directories) ==>
                var p := old(pending)[which];
                var was := p.fetched;
                var name := if p.newName.Some? && p.newName.value != "" then p.newName.value else was.name;
                var metadata := if p.newMetadata.Some? then p.newMetadata.value else was.metadata;
                && db.directories == old(db.directories)[was.id :=
                     old(db.directories)[was.id].(name := name, metadata := metadata, updatedAt := now)]
                && written == old(written) +
                     [Event(UpdateEvent, was.(name := name, metadata := metadata, updatedAt := now))]
    {
      var p := pending[which];
      var d := new DirectoryRecord.Of(p.fetched);
      if p.newName.Some? && p.newName.value != "" {
        d.name := p.newName.value;
      }
      if p.newMetadata.Some? {
        d.metadata := p.newMetadata;
      }
      var updated := db.UpdateDirectory(d, now);
      pending := Without(pending, which);
      if updated.Ok? {
        Begin([Event(UpdateEvent, d.Value())]);
      }
    }

    /** The delete handler's only store call. The database chooses the order of the affected rows. */
    method DeleteSubtree(id: DirectoryID, now: Time) returns (ghost affected: seq<DirectoryID>)
      requires Valid() && ClockPassed(State(), now)
      modifies db`directories, this`written, this`unsent
      ensures StepEnabled(old(State()), MarkSubtree(id, affected), now)
      ensures Valid() && State() == Perform(old(State()), MarkSubtree(id, affected), now)
    {
      ghost var f := db.directories;
      DeleteSetIsLive(f, id);
      var deleted := db.DeleteDirectory(id, now);
      if deleted.Err? {
        affected := [];
        Begin([]);
        return;
      }
      ListedDeletions(f, DeleteSet(f, id), now, deleted.value);
      affected := IdsOf(deleted.value);
      Begin(DeletionsOf(deleted.value));
    }

    /** A handler's next notification is delivered. */
    method Notify(which: nat, ghost now: Time)
      requires Valid() && StepEnabled(State(), Send(which), now)
      modifies this`unsent, this`sent
      ensures Valid() && State() == Perform(old(State()), Send(which), now)
    {
      sent := sent + [unsent[which][0]];
      unsent := unsent[which := unsent[which][1..]];
    }

    /** A handler's next notification fails, and the handler ends. */
    method FailToNotify(which: nat, ghost now: Time)
      requires Valid() && StepEnabled(State(), GiveUp(which), now)
      modifies this`unsent
      ensures Valid() && State() == Perform(old(State()), GiveUp(which), now)
    {
      unsent := unsent[which := []];
    }
  }
}
