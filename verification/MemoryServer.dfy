/** The update handler over the in-memory driver, which hands out the stored record itself. */
module MemoryServer {
  import opened Wrappers
  import opened Directories
  import opened Records
  import opened MemoryDriver
  import opened ServerRuns
  import opened TreeManager

  class Server {
    const db: MemoryDriver.Driver
    var log: seq<Event>

    constructor (db: MemoryDriver.Driver)
      ensures this.db == db && log == []
    {
      this.db := db;
      this.log := [];
    }

    /** Changes the requested fields of the stored record `d`, and so the row of `id` and no other. */
    method ChangeFields(ghost f: Forest, ghost id: DirectoryID, d: DirectoryRecord,
                        newName: Option<string>, newMetadata: Option<Metadata>)
      requires db.Valid() && f == db.Contents() && id in db.dirMap && db.dirMap[id] == d
      modifies d
      ensures db.Valid() && d.id == id
      ensures d.Value() == f[id].(name := Renamed(f[id], newName), metadata := Redescribed(f[id], newMetadata))
      ensures db.Contents() == f[id := d.Value()]
    {
      assert forall x | x in f && x != id :: db.dirMap[x] != d;
      if newName.Some? && newName.value != "" {
        d.name := newName.value;
      }
      if newMetadata.Some? {
        d.metadata := newMetadata;
      }
    }

    /** Changes the record and stores it again. */
    method WriteBack(ghost f: Forest, ghost id: DirectoryID, d: DirectoryRecord,
                     newName: Option<string>, newMetadata: Option<Metadata>, now: Time)
      requires db.Valid() && f == db.Contents() && id in db.dirMap && db.dirMap[id] == d
      modifies db`dirMap, d
      ensures db.Valid() && db.dirMap == old(db.dirMap)
      ensures d.Value() == Changed(f[id], newName, newMetadata, now)
      ensures db.Contents() == f[id := Changed(f[id], newName, newMetadata, now)]
    {
      ChangeFields(f, id, d, newName, newMetadata);
      db.UpdateDirectory(d, now);
    }

    /**
     The requested fields are changed in the stored record before it is written back. The outcome is still that of
     the atomic request: one row changed, and an event with the new row.
     */
    method UpdateDirectory(id: DirectoryID, newName: Option<string>, newMetadata: Option<Metadata>, now: Time,
                           delivered: bool)
      returns (status: int)
      requires db.Valid()
      modifies db`dirMap, db.dirMap.Values, this`log
      ensures db.Valid() && db.dirMap == old(db.dirMap)
      ensures status == NOT_FOUND <==> !Live(old(db.Contents()), id)
      ensures status == NOT_FOUND ==> db.Contents() == old(db.Contents()) && log == old(log)
      ensures Live(old(db.Contents()), id) ==>
                var row := Changed(old(db.Contents())[id], newName, newMetadata, now);
                && status == (if delivered then OK else INTERNAL_SERVER_ERROR)
                && db.Contents() == old(db.Contents())[id := row]
                && log == (if delivered then old(log) + [Event(UpdateEvent, row)] else old(log))
      ensures Live(old(db.Contents()), id) ==>
                && id in db.Contents()
                && var was, row := old(db.Contents())[id], db.Contents()[id];
                   && row.name == (if newName.Some? && newName.value != "" then newName.value else was.name)
                   && row.metadata == (if newMetadata.Some? then newMetadata.value else was.metadata)
                   && row == was.(name := row.name, metadata := row.metadata, updatedAt := now)
                   && db.Contents() == old(db.Contents())[id := row]
                   && log == old(log) + (if delivered then [Event(UpdateEvent, row)] else [])
    {
      ghost var f := db.Contents();
      var found := db.GetDirectory(id, []);
      if found.Err? {
        return NOT_FOUND;
      }
      WriteBack(f, id, found.value, newName, newMetadata, now);
      if !delivered {
        return INTERNAL_SERVER_ERROR;
      }
      log := log + [Event(UpdateEvent, found.value.Value())];
      status := OK;
    }
  }
}
