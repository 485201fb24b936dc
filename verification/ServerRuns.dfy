/**
 The server as a state machine: each request handler runs to its end, the store is the CockroachDB
 driver's table, and every write is followed by its notifications.
 */
module ServerRuns {
  import opened Wrappers
  import opened Directories
  import opened Lifecycle
  import opened Ordering

  datatype EventType = CreateEvent | UpdateEvent | DeleteEvent | DeleteHardEvent

  /** A published event carries a copy of the directory. */
  datatype Event = Event(kind: EventType, directory: Directory)

  datatype Request =
    | CreateRoot(id: DirectoryID, name: string, metadata: Metadata)
    | Create(id: DirectoryID, parent: DirectoryID, name: string, metadata: Metadata)
    | Update(id: DirectoryID, newName: Option<string>, newMetadata: Option<Metadata>)
    | Delete(id: DirectoryID, affected: seq<DirectoryID>)

  /** A request served at time `now`. */
  datatype Label = Label(request: Request, now: Time)

  datatype ServerState = ServerState(store: Forest, log: seq<Event>)

  /** Ids are fresh, the clock moves on, and a delete names what the database returned, in its order. */
  ghost predicate Enabled(f: Forest, l: Label)
    requires WellFormed(f)
  {
    && Newer(f, l.now)
    && (l.request.CreateRoot? || l.request.Create? ==> l.request.id !in f)
    && (l.request.Delete? ==>
          NoDuplicates(l.request.affected) && Elements(l.request.affected) == DeleteSet(f, l.request.id))
  }

  /** An absent or empty name and absent metadata leave the stored values. */
  function Renamed(d: Directory, newName: Option<string>): string {
    if newName.Some? && newName.value != "" then newName.value else d.name
  }

  function Redescribed(d: Directory, newMetadata: Option<Metadata>): Metadata {
    if newMetadata.Some? then newMetadata.value else d.metadata
  }

  function Changed(d: Directory, newName: Option<string>, newMetadata: Option<Metadata>, now: Time): Directory {
    UpdatedRow(d, Renamed(d, newName), Redescribed(d, newMetadata), now)
  }

  /** The events of a request, in the order they are published. */
  ghost function Published(f: Forest, l: Label): seq<Event> {
    match l.request
    case CreateRoot(id, name, metadata) => [Event(CreateEvent, NewRow(id, name, metadata, None, l.now))]
    case Create(id, parent, name, metadata) =>
      if Live(f, parent) then [Event(CreateEvent, NewRow(id, name, metadata, Some(parent), l.now))] else []
    case Update(id, newName, newMetadata) =>
      if Live(f, id) then [Event(UpdateEvent, Changed(f[id], newName, newMetadata, l.now))] else []
    case Delete(_, affected) => DeleteEvents(f, affected, l.now)
  }

  ghost function DeleteEvents(f: Forest, ids: seq<DirectoryID>, now: Time): seq<Event>
  {
    if ids == [] || ids[|ids| - 1] !in f then []
    else DeleteEvents(f, ids[..|ids| - 1], now) + [Event(DeleteEvent, f[ids[|ids| - 1]].(deletedAt := Some(now)))]
  }

  /** The store after a request. */
  ghost function Stored(f: Forest, l: Label): Forest
    requires WellFormed(f)
  {
    match l.request
    case CreateRoot(id, name, metadata) => f[id := NewRow(id, name, metadata, None, l.now)]
    case Create(id, parent, name, metadata) =>
      if Live(f, parent) then f[id := NewRow(id, name, metadata, Some(parent), l.now)] else f
    case Update(id, newName, newMetadata) =>
      if Live(f, id) then f[id := Changed(f[id], newName, newMetadata, l.now)] else f
    case Delete(id, _) => MarkDeleted(f, DeleteSet(f, id), l.now)
  }

  ghost predicate Sound(f: Forest) {
    WellFormed(f) && LiveClosure(f) && RootsLive(f)
  }

  /** What one request keeps of the store. */
  lemma StoredKeeps(f: Forest, l: Label)
    requires Sound(f) && Enabled(f, l)
    ensures Sound(Stored(f, l)) && Extends(f, Stored(f, l))
  {
    match l.request
    case CreateRoot(id, name, metadata) =>
      InsertKeeps(f, NewRow(id, name, metadata, None, l.now));
    case Create(id, parent, name, metadata) =>
      if Live(f, parent) {
        InsertKeeps(f, NewRow(id, name, metadata, Some(parent), l.now));
      }
    case Update(id, newName, newMetadata) =>
      if Live(f, id) {
        UpdateKeeps(f, id, Renamed(f[id], newName), Redescribed(f[id], newMetadata), l.now);
      }
    case Delete(id, _) =>
      DeleteKeeps(f, id, l.now);
  }

  /** Writing each event's directory under its id, from first to last. */
  function Fold(f: Forest, log: seq<Event>): Forest {
    if log == [] then f
    else Fold(f, log[..|log| - 1])[log[|log| - 1].directory.id := log[|log| - 1].directory]
  }

  lemma {:induction false} FoldConcat(f: Forest, a: seq<Event>, b: seq<Event>)
    ensures Fold(f, a + b) == Fold(Fold(f, a), b)
  {
    if b == [] {
      assert a + b == a;
    } else {
      assert (a + b)[..|a + b| - 1] == a + b[..|b| - 1];
      FoldConcat(f, a, b[..|b| - 1]);
    }
  }

  /** `k` is the last event of `log` about `x`. */
  ghost predicate LastAbout(log: seq<Event>, x: DirectoryID, k: int) {
    0 <= k < |log| && log[k].directory.id == x && forall j | k < j < |log| :: log[j].directory.id != x
  }

  lemma FoldSnoc(f: Forest, log: seq<Event>, e: Event)
    ensures Fold(f, log + [e]) == Fold(f, log)[e.directory.id := e.directory]
  {
    assert (log + [e])[..|log + [e]| - 1] == log;
  }

  /** The fold holds, for each id, the directory of the last event about it. */
  lemma {:induction false} FoldIsLast(f: Forest, log: seq<Event>, x: DirectoryID, k: int)
    requires LastAbout(log, x, k)
    ensures x in Fold(f, log) && Fold(f, log)[x] == log[k].directory
    decreases |log|
  {
    var n := |log| - 1;
    if k < n {
      assert LastAbout(log[..n], x, k);
      FoldIsLast(f, log[..n], x, k);
    }
  }

  lemma {:induction false} FoldWithout(f: Forest, log: seq<Event>, x: DirectoryID)
    requires forall k | 0 <= k < |log| :: log[k].directory.id != x
    ensures x in Fold(f, log) <==> x in f
    decreases |log|
  {
    if log != [] {
      FoldWithout(f, log[..|log| - 1], x);
    }
  }

  /** The events published from store `f` describe a possible next change of it. */
  ghost predicate Fits(f: Forest, e: Event)
    requires WellFormed(f)
  {
    var d := e.directory;
    match e.kind
    case CreateEvent =>
      d.id !in f && Newer(f, d.createdAt) && d.deletedAt.None? && (d.parent.Some? ==> Live(f, d.parent.value))
    case UpdateEvent =>
      Live(f, d.id) && d == f[d.id].(name := d.name, metadata := d.metadata, updatedAt := d.updatedAt)
    case DeleteEvent =>
      Live(f, d.id) && f[d.id].parent.Some? && d.IsDeleted() && d == f[d.id].(deletedAt := d.deletedAt)
    case DeleteHardEvent =>
      false
  }

  lemma FitsKeeps(f: Forest, e: Event)
    requires WellFormed(f) && Fits(f, e)
    ensures WellFormed(f[e.directory.id := e.directory]) && Extends(f, f[e.directory.id := e.directory])
  {
    var d := e.directory;
    var g := f[d.id := d];
    forall x | x in g && g[x].parent.Some?
      ensures ParentIsOlder(g, x)
    {
      assert x in f ==> ParentIsOlder(f, x);
    }
  }

  /** Each event of `log` fits the store that the events before it have built. */
  ghost predicate LogFits(f: Forest, log: seq<Event>)
    requires WellFormed(f)
    decreases |log|
  {
    log == [] ||
    (&& LogFits(f, log[..|log| - 1])
     && WellFormed(Fold(f, log[..|log| - 1]))
     && Fits(Fold(f, log[..|log| - 1]), log[|log| - 1]))
  }

  /** Each event of `log` fits in turn, and together they lead from `f` to `g`. */
  ghost predicate Builds(f: Forest, log: seq<Event>, g: Forest)
    requires WellFormed(f)
  {
    LogFits(f, log) && Fold(f, log) == g
  }

  lemma BuildsSnoc(f: Forest, log: seq<Event>, g: Forest, e: Event)
    requires WellFormed(f) && Builds(f, log, g) && WellFormed(g) && Fits(g, e)
    ensures Builds(f, log + [e], g[e.directory.id := e.directory])
  {
    FoldSnoc(f, log, e);
  }

  lemma BuildsConcat(f: Forest, a: seq<Event>, g: Forest, b: seq<Event>, h: Forest)
    requires WellFormed(f) && Builds(f, a, g) && WellFormed(g) && Builds(g, b, h)
    ensures Builds(f, a + b, h)
  {
    FoldConcat(f, a, b);
    LogFitsConcat(f, a, b);
  }

  lemma {:induction false} LogFitsWellFormed(f: Forest, log: seq<Event>)
    requires WellFormed(f) && LogFits(f, log)
    ensures WellFormed(Fold(f, log)) && Extends(f, Fold(f, log))
  {
    if log != [] {
      var n := |log| - 1;
      LogFitsWellFormed(f, log[..n]);
      FitsKeeps(Fold(f, log[..n]), log[n]);
    }
  }

  lemma {:induction false} LogFitsConcat(f: Forest, a: seq<Event>, b: seq<Event>)
    requires WellFormed(f) && LogFits(f, a) && WellFormed(Fold(f, a)) && LogFits(Fold(f, a), b)
    ensures LogFits(f, a + b)
  {
    if b == [] {
      assert a + b == a;
    } else {
      var n := |b| - 1;
      assert (a + b)[..|a + b| - 1] == a + b[..n];
      LogFitsConcat(f, a, b[..n]);
      FoldConcat(f, a, b[..n]);
    }
  }

  lemma {:induction false} LogFitsPrefix(f: Forest, log: seq<Event>, k: nat)
    requires WellFormed(f) && LogFits(f, log) && k <= |log|
    ensures LogFits(f, log[..k])
  {
    if k < |log| {
      assert log[..|log| - 1][..k] == log[..k];
      LogFitsPrefix(f, log[..|log| - 1], k);
    } else {
      assert log[..k] == log;
    }
  }

  /** What the first `k` events of a log describe grows into what they all do. */
  lemma {:induction false} PrefixViews(f: Forest, log: seq<Event>, k: nat)
    requires WellFormed(f) && LogFits(f, log) && k <= |log|
    ensures WellFormed(Fold(f, log[..k])) && WellFormed(Fold(f, log))
    ensures Extends(f, Fold(f, log[..k])) && Extends(Fold(f, log[..k]), Fold(f, log))
    decreases |log|
  {
    LogFitsWellFormed(f, log);
    if k == |log| {
      assert log[..k] == log;
    } else {
      var n := |log| - 1;
      PrefixViews(f, log[..n], k);
      assert log[..n][..k] == log[..k];
      FitsKeeps(Fold(f, log[..n]), log[n]);
      ExtendsTransitive(Fold(f, log[..k]), Fold(f, log[..n]), Fold(f, log));
    }
  }

  lemma LastFits(f: Forest, log: seq<Event>)
    requires WellFormed(f) && LogFits(f, log) && log != []
    ensures
      var n := |log| - 1;
      WellFormed(Fold(f, log[..n])) && Fits(Fold(f, log[..n]), log[n]) &&
      Fold(f, log) == Fold(f, log[..n])[log[n].directory.id := log[n].directory]
  {
  }

  lemma NextFits(f: Forest, log: seq<Event>, k: nat)
    requires WellFormed(f) && LogFits(f, log) && k < |log|
    ensures WellFormed(Fold(f, log[..k])) && Fits(Fold(f, log[..k]), log[k])
    ensures Fold(f, log[..k + 1]) == Fold(f, log[..k])[log[k].directory.id := log[k].directory]
  {
    LogFitsPrefix(f, log, k + 1);
    LastFits(f, log[..k + 1]);
    assert log[..k + 1][..k] == log[..k];
  }

  ghost predicate Deletable(f: Forest, ids: seq<DirectoryID>) {
    NoDuplicates(ids) && forall x | x in Elements(ids) :: Live(f, x) && f[x].parent.Some?
  }

  lemma DeletableSplits(f: Forest, ids: seq<DirectoryID>)
    requires Deletable(f, ids) && ids != []
    ensures
      var rest, x := ids[..|ids| - 1], ids[|ids| - 1];
      && Deletable(f, rest) && Live(f, x) && f[x].parent.Some?
      && x !in Elements(rest) && Elements(ids) == Elements(rest) + {x}
  {
    ElementsSnoc(ids);
  }

  /** The delete events, one by one, build the marked store, and each fits. */
  lemma {:induction false} DeleteEventsFit(f: Forest, ids: seq<DirectoryID>, now: Time)
    requires WellFormed(f) && Deletable(f, ids) && now > 0
    ensures Builds(f, DeleteEvents(f, ids, now), MarkDeleted(f, Elements(ids), now))
    decreases |ids|
  {
    if ids == [] {
    } else {
      var rest, x := ids[..|ids| - 1], ids[|ids| - 1];
      DeletableSplits(f, ids);
      DeleteEventsFit(f, rest, now);
      DeleteEventFits(f, rest, x, DeleteEvents(f, rest, now), now);
    }
  }

  lemma DeleteEventFits(f: Forest, ids: seq<DirectoryID>, x: DirectoryID, before: seq<Event>, now: Time)
    requires WellFormed(f) && Deletable(f, ids) && now > 0 && x !in Elements(ids) && Live(f, x) && f[x].parent.Some?
    requires Builds(f, before, MarkDeleted(f, Elements(ids), now))
    ensures Builds(f, before + [Event(DeleteEvent, f[x].(deletedAt := Some(now)))],
              MarkDeleted(f, Elements(ids) + {x}, now))
  {
    var s := Elements(ids);
    MarkKeeps(f, s, now);
    MarkFits(f, s, x, now);
    BuildsSnoc(f, before, MarkDeleted(f, s, now), Event(DeleteEvent, f[x].(deletedAt := Some(now))));
  }

  lemma MarkFits(f: Forest, s: set<DirectoryID>, x: DirectoryID, now: Time)
    requires WellFormed(f) && now > 0 && x !in s && Live(f, x) && f[x].parent.Some?
    requires WellFormed(MarkDeleted(f, s, now))
    ensures Fits(MarkDeleted(f, s, now), Event(DeleteEvent, f[x].(deletedAt := Some(now))))
    ensures MarkDeleted(f, s, now)[x := f[x].(deletedAt := Some(now))] == MarkDeleted(f, s + {x}, now)
  {
  }

  lemma SingleFits(f: Forest, e: Event)
    requires WellFormed(f) && Fits(f, e)
    ensures Builds(f, [e], f[e.directory.id := e.directory])
  {
    BuildsSnoc(f, [], f, e);
    assert [] + [e] == [e];
  }

  /** What a request publishes fits the store before it and builds the store after it. */
  lemma PublishedFits(f: Forest, l: Label)
    requires Sound(f) && Enabled(f, l)
    ensures Builds(f, Published(f, l), Stored(f, l))
  {
    match l.request
    case CreateRoot(id, name, metadata) =>
      SingleFits(f, Published(f, l)[0]);
    case Create(id, parent, name, metadata) =>
      if Live(f, parent) {
        SingleFits(f, Published(f, l)[0]);
      }
    case Update(id, newName, newMetadata) =>
      if Live(f, id) {
        SingleFits(f, Published(f, l)[0]);
      }
    case Delete(id, affected) =>
      DeleteSetIsLive(f, id);
      DeleteEventsFit(f, affected, l.now);
  }

  ghost function Serve(s: ServerState, l: Label): ServerState
    requires WellFormed(s.store)
  {
    ServerState(Stored(s.store, l), s.log + Published(s.store, l))
  }

  /** Each request is enabled in the store that the requests before it have left. */
  ghost predicate AllEnabled(f: Forest, labels: seq<Label>)
    requires Sound(f)
    decreases |labels|
  {
    labels == [] ||
    (Enabled(f, labels[0]) && (StoredKeeps(f, labels[0]); AllEnabled(Stored(f, labels[0]), labels[1..])))
  }

  /** The state after serving `labels` one after the other, all notifications delivered. */
  ghost function Run(s: ServerState, labels: seq<Label>): ServerState
    requires Sound(s.store) && AllEnabled(s.store, labels)
    decreases |labels|
  {
    if labels == [] then s
    else
      StoredKeeps(s.store, labels[0]);
      Run(Serve(s, labels[0]), labels[1..])
  }

  ghost const INITIAL: ServerState := ServerState(map[], [])

  /** In every run the store stays sound, and the events published since its start rebuild it. */
  lemma {:induction false} RunKeeps(s: ServerState, labels: seq<Label>) returns (since: seq<Event>)
    requires Sound(s.store) && AllEnabled(s.store, labels)
    ensures Sound(Run(s, labels).store) && Extends(s.store, Run(s, labels).store)
    ensures Run(s, labels).log == s.log + since
    ensures Builds(s.store, since, Run(s, labels).store)
    decreases |labels|
  {
    if labels == [] {
      since := [];
    } else {
      var g, published := ServeKeeps(s.store, labels[0]);
      var after := RunKeeps(Serve(s, labels[0]), labels[1..]);
      since := published + after;
      JoinRuns(s, g, published, after, Run(s, labels));
    }
  }

  lemma JoinRuns(s: ServerState, g: Forest, published: seq<Event>, after: seq<Event>, t: ServerState)
    requires WellFormed(s.store) && WellFormed(g)
    requires Extends(s.store, g) && Extends(g, t.store)
    requires Builds(s.store, published, g) && Builds(g, after, t.store) && t.log == s.log + published + after
    ensures Extends(s.store, t.store) && Builds(s.store, published + after, t.store)
    ensures t.log == s.log + (published + after)
  {
    BuildsConcat(s.store, published, g, after, t.store);
    ExtendsTransitive(s.store, g, t.store);
  }

  lemma ServeKeeps(f: Forest, l: Label) returns (g: Forest, published: seq<Event>)
    requires Sound(f) && Enabled(f, l)
    ensures g == Stored(f, l) && published == Published(f, l)
    ensures Sound(g) && Extends(f, g) && Builds(f, published, g)
  {
    StoredKeeps(f, l);
    PublishedFits(f, l);
    g, published := Stored(f, l), Published(f, l);
  }

  lemma ExtendsTransitive(f: Forest, g: Forest, h: Forest)
    requires Extends(f, g) && Extends(g, h)
    ensures Extends(f, h)
  {
  }

  /**
   In every state reachable from the empty one, every live directory has all its ancestors live and no root is
   deleted.
   */
  lemma ReachableIsLiveClosed(labels: seq<Label>)
    requires AllEnabled(INITIAL.store, labels)
    ensures
      var f := Run(INITIAL, labels).store;
      && WellFormed(f)
      && (forall x, y | Live(f, x) && y in Ancestors(f, x) :: Live(f, y))
      && (forall x | x in f && f[x].parent.None? :: Live(f, x))
  {
    var since := RunKeeps(INITIAL, labels);
    LiveClosureIffAncestorsLive(Run(INITIAL, labels).store);
  }

  /**
   The last event about each id carries its stored row, only stored ids have events, and folding the log rebuilds the
   store.
   */
  lemma LogDeterminesStore(labels: seq<Label>, x: DirectoryID)
    requires AllEnabled(INITIAL.store, labels)
    ensures
      var s := Run(INITIAL, labels);
      && Fold(map[], s.log) == s.store
      && (forall k | LastAbout(s.log, x, k) :: x in s.store && s.store[x] == s.log[k].directory)
      && (x in s.store <==> exists k :: LastAbout(s.log, x, k))
  {
    var log := RunKeeps(INITIAL, labels);
    assert Run(INITIAL, labels).log == log;
    forall k | LastAbout(log, x, k)
      ensures x in Fold(map[], log) && Fold(map[], log)[x] == log[k].directory
    {
      FoldIsLast(map[], log, x, k);
    }
    if exists k :: 0 <= k < |log| && log[k].directory.id == x {
      var k := LastExists(log, x);
    } else {
      FoldWithout(map[], log, x);
    }
  }

  lemma {:induction false} LastExists(log: seq<Event>, x: DirectoryID) returns (k: int)
    requires exists k :: 0 <= k < |log| && log[k].directory.id == x
    ensures LastAbout(log, x, k)
    decreases |log|
  {
    var n := |log| - 1;
    if log[n].directory.id == x {
      k := n;
    } else {
      var j :| 0 <= j < |log| && log[j].directory.id == x;
      assert log[..n][j].directory.id == x;
      k := LastExists(log[..n], x);
    }
  }

  /**
   In every reachable state a delete takes the whole live subtree and nothing else, and a second one finds nothing.
   */
  lemma ReachableDeleteIsExact(labels: seq<Label>, id: DirectoryID, now: Time)
    requires AllEnabled(INITIAL.store, labels)
    ensures
      var f := Run(INITIAL, labels).store;
      WellFormed(f) &&
      var s, g := DeleteSet(f, id), MarkDeleted(f, DeleteSet(f, id), now);
      && s == (if Live(f, id) && f[id].parent.Some? then LiveSubtree(f, id) else {})
      && (forall x | x in f :: g[x] == if x in s then f[x].(deletedAt := Some(now)) else f[x])
      && |LiveSet(g)| == |LiveSet(f)| - |s|
      && WellFormed(g) && DeleteSet(g, id) == {}
  {
    var since := RunKeeps(INITIAL, labels);
    DeleteIsExact(Run(INITIAL, labels).store, id, now);
  }

  lemma {:induction false} PrefixEnabled(f: Forest, labels: seq<Label>, k: nat)
    requires Sound(f) && AllEnabled(f, labels) && k <= |labels|
    ensures AllEnabled(f, labels[..k])
    decreases |labels|
  {
    if k > 0 {
      StoredKeeps(f, labels[0]);
      PrefixEnabled(Stored(f, labels[0]), labels[1..], k - 1);
      assert labels[..k][1..] == labels[1..][..k - 1];
    }
  }

  /** The store after the first `k` requests of a run. */
  ghost function StoreAt(labels: seq<Label>, k: nat): Forest
    requires AllEnabled(INITIAL.store, labels) && k <= |labels|
  {
    PrefixEnabled(INITIAL.store, labels, k);
    Run(INITIAL, labels[..k]).store
  }

  lemma {:induction false} RunFromPrefix(s: ServerState, labels: seq<Label>, k: nat)
    requires Sound(s.store) && AllEnabled(s.store, labels) && k <= |labels| && AllEnabled(s.store, labels[..k])
    ensures Sound(Run(s, labels[..k]).store)
    ensures Sound(Run(s, labels).store) && Extends(Run(s, labels[..k]).store, Run(s, labels).store)
    decreases |labels|
  {
    if k == 0 {
      var since := RunKeeps(s, labels);
    } else {
      StoredKeeps(s.store, labels[0]);
      assert labels[..k][0] == labels[0] && labels[..k][1..] == labels[1..][..k - 1];
      RunFromPrefix(Serve(s, labels[0]), labels[1..], k - 1);
    }
  }

  /** An earlier store of the run is sound, and the final one extends it. */
  lemma StoreAtKeeps(labels: seq<Label>, k: nat)
    requires AllEnabled(INITIAL.store, labels) && k <= |labels|
    ensures Sound(StoreAt(labels, k)) && Sound(Run(INITIAL, labels).store)
    ensures Extends(StoreAt(labels, k), Run(INITIAL, labels).store)
  {
    PrefixEnabled(INITIAL.store, labels, k);
    RunFromPrefix(INITIAL, labels, k);
  }
}
