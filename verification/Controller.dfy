/** The tracked-directories store and the controller that mirrors a subtree into it. */
module Controller {
  import opened Wrappers
  import opened Directories
  import opened ServerRuns
  import opened Tracking
  import opened FirstError

  datatype StoreError = UnexpectedRowsAffected

  /** The `tracked_directories` table. */
  class TrackedStore {
    var rows: Table

    constructor ()
      ensures rows == map[]
    {
      rows := map[];
    }

    method IsDirectoryTracked(id: DirectoryID) returns (exists_: bool)
      ensures exists_ <==> id in rows
    {
      exists_ := id in rows;
    }

    /** True when the directory is tracked and its deletion time is the stored one. */
    method IsDirectoryInfoUpdated(dir: Directory) returns (updated: bool)
      ensures updated <==> UpToDate(rows, dir)
      ensures updated <==> dir.id in rows && rows[dir.id] == (if dir.deletedAt == Some(0) then None else dir.deletedAt)
    {
      var tracked := IsDirectoryTracked(dir.id);
      if !tracked {
        return false;
      }
      var deletedAt := rows[dir.id];
      CompareMeaning(deletedAt, dir.deletedAt);
      updated := CompareDeletedAt(deletedAt, dir.deletedAt);
    }

    /** Inserts unless the id is there already; anything but one inserted row is an error. */
    method CreateDirectory(d: Directory) returns (r: Result<Directory, StoreError>)
      modifies this
      ensures r.Ok? <==> d.id !in old(rows)
      ensures rows == if d.id in old(rows) then old(rows) else old(rows)[d.id := None]
    {
      var affected := 0;
      if d.id !in rows {
        rows := rows[d.id := None];
        affected := 1;
      }
      if affected != 1 {
        return Err(UnexpectedRowsAffected);
      }
      r := Ok(d);
    }

    /** Marks the row if it is live; anything but one marked row is an error. */
    method DeleteDirectory(id: DirectoryID, now: Time) returns (r: Result<seq<DirectoryID>, StoreError>)
      modifies this
      ensures r.Ok? <==> id in old(rows) && old(rows)[id].None?
      ensures r.Ok? ==> r.value == [id]
      ensures rows == if r.Ok? then old(rows)[id := Some(now)] else old(rows)
    {
      var affected: seq<DirectoryID> := [];
      if id in rows && rows[id].None? {
        rows := rows[id := Some(now)];
        affected := [id];
      }
      if |affected| != 1 {
        return Err(UnexpectedRowsAffected);
      }
      r := Ok(affected);
    }
  }

  class AppController {
    const store: TrackedStore
    const env: Environment
    const hasClient: bool

    /** The calls the reconciler has received. */
    var calls: seq<Call>

    constructor (store: TrackedStore, env: Environment, hasClient: bool)
      ensures this.store == store && this.env == env && this.hasClient == hasClient && calls == []
    {
      this.store := store;
      this.env := env;
      this.hasClient := hasClient;
      this.calls := [];
    }

    ghost function State(): ControllerState
      reads this, store
    {
      ControllerState(store.rows, calls)
    }

    method Reconcile(kind: CallKind, d: Directory) returns (ok: bool)
      modifies this`calls
      ensures calls == old(calls) + [Call(kind, d)] && ok == env.reconciles(|old(calls)|)
    {
      ok := env.reconciles(|calls|);
      calls := calls + [Call(kind, d)];
    }

    /** Writes the table first and calls the reconciler only if exactly one row changed. */
    method PersistDirectory(d: Directory) returns (ok: bool)
      modifies this`calls, store
      ensures (State(), ok) == Persist(env, old(State()), d)
      ensures store.rows == old(store.rows) <==> calls == old(calls)
      ensures calls != old(calls) ==>
                calls == old(calls) + [Call(if d.IsDeleted() then DeleteCall else CreateCall, d)]
    {
      if d.IsDeleted() {
        var deleted := store.DeleteDirectory(d.id, env.now(|calls|));
        if deleted.Err? {
          return false;
        }
        ok := Reconcile(DeleteCall, d);
        return;
      }
      var created := store.CreateDirectory(d);
      if created.Err? {
        return false;
      }
      ok := Reconcile(CreateCall, d);
    }

    method IsRelevantEvent(event: Event) returns (relevant: bool)
      ensures relevant <==> Relevant(store.rows, event)
    {
      var d := event.directory;
      var tracking := store.IsDirectoryTracked(d.id);
      if tracking {
        return true;
      }
      if event.kind != CreateEvent {
        return false;
      }
      if d.parent.None? {
        return false;
      }
      relevant := store.IsDirectoryTracked(d.parent.value);
    }

    method ProcessIncomingEvent(event: Event) returns (ok: bool)
      modifies this`calls, store
      ensures (State(), ok) == ProcessEvent(env, old(State()), event)
    {
      var relevant := IsRelevantEvent(event);
      if !relevant {
        return true;
      }
      ok := PersistDirectory(event.directory);
    }

    method PersistIfUpToDate(answer: Option<Directory>) returns (ok: bool)
      modifies this`calls, store
      ensures hasClient ==> (State(), ok) == PersistIfStale(env, old(State()), answer)
      ensures !hasClient ==> ok && State() == old(State())
    {
      if !hasClient {
        return true;
      }
      if answer.None? {
        return false;
      }
      var upToDate := store.IsDirectoryInfoUpdated(answer.value);
      if upToDate {
        return true;
      }
      ok := PersistDirectory(answer.value);
    }

    /** Persists the base, then the directories on the first page of its children, until one of them fails. */
    method InitializeDirectories(a: ClientAnswers) returns (ok: bool)
      modifies this`calls, store
      ensures hasClient ==> (State(), ok) == Initialize(env, old(State()), a)
      ensures !hasClient ==> ok && State() == old(State())
    {
      if !hasClient {
        return true;
      }
      ok := PersistIfUpToDate(a.base);
      if !ok {
        return false;
      }
      if a.page.None? {
        return false;
      }
      var subdirs := PageAnswers(a);
      ghost var start := State();
      for i := 0 to |subdirs|
        invariant PersistEach(env, start, subdirs) == PersistEach(env, State(), subdirs[i..])
      {
        ok := PersistIfUpToDate(subdirs[i]);
        if !ok {
          return false;
        }
        assert subdirs[i..][1..] == subdirs[i + 1..];
      }
      ok := true;
    }

    /** The select loop over the inputs in the order they are taken, ended by the first error. */
    method Run(startup: ClientAnswers, inputs: seq<Input>) returns (ok: bool)
      requires !hasClient ==> forall i | 0 <= i < |inputs| :: !inputs[i].Tick?
      modifies this`calls, store
      ensures (State(), ok) == RunController(env, old(State()), if hasClient then Some(startup) else None, inputs)
      ensures ok ==> forall i | 0 <= i < |inputs| :: !inputs[i].WatchFailed? && !inputs[i].Cancelled?
      ensures forall i | 0 <= i < |inputs| && (inputs[i].WatchFailed? || inputs[i].Cancelled?) ::
                State() ==
                  RunController(env, old(State()), if hasClient then Some(startup) else None, inputs[..i]).0
    {
      ghost var asked := if hasClient then Some(startup) else None;
      forall i | 0 <= i < |inputs| && (inputs[i].WatchFailed? || inputs[i].Cancelled?)
        ensures RunController(env, State(), asked, inputs) == (RunController(env, State(), asked, inputs[..i]).0, false)
      {
        WatchEndsRun(env, State(), asked, inputs, i);
      }
      if hasClient {
        ok := InitializeDirectories(startup);
        if !ok {
          return false;
        }
      }
      ghost var start := State();
      for i := 0 to |inputs|
        invariant ProcessAll(env, start, inputs) == ProcessAll(env, State(), inputs[i..])
      {
        ghost var before := State();
        assert inputs[i..][0] == inputs[i];
        match inputs[i] {
        case Tick(answers) =>
          ok := InitializeDirectories(answers);
        case Incoming(event) =>
          ok := ProcessIncomingEvent(event);
        case WatchFailed =>
          ok := false;
        case Cancelled =>
          ok := false;
        }
        assert (State(), ok) == ProcessInput(env, before, inputs[i]);
        if !ok {
          return false;
        }
        assert inputs[i..][1..] == inputs[i + 1..];
      }
      ok := true;
    }
  }
}
