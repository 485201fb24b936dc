/** Directory records, shared by pointer between callers and drivers. */
module Records {
  import opened Wrappers
  import opened Directories

  /** A `*Directory`. Callers and the driver share these records. */
  class DirectoryRecord {
    var id: DirectoryID
    var name: string
    var metadata: Option<Metadata>
    var parent: Option<DirectoryID>
    var createdAt: Time
    var updatedAt: Time
    var deletedAt: Option<Time>

    constructor (name: string, metadata: Option<Metadata>, parent: Option<DirectoryID>)
      ensures Value() == Directory(0, name, MetadataOr(metadata), parent, 0, 0, None)
    {
      this.id, this.name, this.metadata, this.parent := 0, name, metadata, parent;
      this.createdAt, this.updatedAt, this.deletedAt := 0, 0, None;
    }

    /** A record scanned from a row. */
    constructor Of(d: Directory)
      ensures Value() == d
    {
      id, name, metadata, parent := d.id, d.name, Some(d.metadata), d.parent;
      createdAt, updatedAt, deletedAt := d.createdAt, d.updatedAt, d.deletedAt;
    }

    function Value(): Directory
      reads this
    {
      Directory(id, name, MetadataOr(metadata), parent, createdAt, updatedAt, deletedAt)
    }

    /** Fills in what the driver generates for a new directory. */
    method Stamp(id: DirectoryID, created: Time, updated: Time)
      modifies this
      ensures Value() == old(Value()).(id := id, createdAt := created, updatedAt := updated)
    {
      if metadata.None? {
        metadata := Some(map[]);
      }
      this.id, createdAt, updatedAt := id, created, updated;
    }
  }

  /** A nil metadata pointer stands for empty metadata. */
  function MetadataOr(m: Option<Metadata>): Metadata {
    if m.Some? then m.value else map[]
  }
}
