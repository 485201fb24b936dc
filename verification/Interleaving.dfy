/**
 Handlers split at each call of the store and at each notification, and interleaved in any order. The create handler
 looks its parent up in one call and inserts in another; the update handler fetches in one call and writes in
 another; and what a write has to tell is sent some time after it, or never if the notification fails.
 */
module Interleaving {
  import opened Wrappers
  import opened Directories
  import opened Lifecycle
  import opened Ordering
  import opened ServerRuns

  /** What a handler remembers between its two store calls. */
  datatype Pending =
    | PendingCreate(parent: DirectoryID, name: string, metadata: Metadata)
    | PendingUpdate(fetched: Directory, newName: Option<string>, newMetadata: Option<Metadata>)

  /**
   `written` is the history of all events that writes have given rise to; an event is known by its position there.
   `unsent` holds, for each handler that has written, what it has still to send, and `sent` what has been published.
   */
  datatype SystemState = SystemState(
    table: Forest,
    pending: seq<Pending>,
    written: seq<Event>,
    unsent: seq<seq<nat>>,
    sent: seq<nat>)

  datatype Step =
    | InsertRoot(id: DirectoryID, name: string, metadata: Metadata)
    | FetchParent(parent: DirectoryID, name: string, metadata: Metadata)
    | InsertChild(which: nat, id: DirectoryID)
    | FetchDirectory(id: DirectoryID, newName: Option<string>, newMetadata: Option<Metadata>)
    | WriteDirectory(which: nat)
    | MarkSubtree(id: DirectoryID, affected: seq<DirectoryID>)
    | Send(which: nat)
    | GiveUp(which: nat)

  ghost predicate SentWritten(s: SystemState) {
    forall i | 0 <= i < |s.sent| :: s.sent[i] < |s.written|
  }

  /** What has been published, in order. */
  function Log(s: SystemState): seq<Event>
    requires SentWritten(s)
  {
    seq(|s.sent|, i requires 0 <= i < |s.sent| => s.written[s.sent[i]])
  }

  function Without(s: seq<Pending>, k: nat): seq<Pending>
    requires k < |s|
  {
    s[..k] + s[k + 1..]
  }

  /** The clock has moved past all times of `d`. */
  predicate Passed(d: Directory, now: Time) {
    d.createdAt < now && d.updatedAt < now && (d.deletedAt.Some? ==> d.deletedAt.value < now)
  }

  ghost predicate ClockPassed(s: SystemState, now: Time) {
    && now > 0
    && (forall x | x in s.table :: Passed(s.table[x], now))
    && (forall i | 0 <= i < |s.written| :: Passed(s.written[i].directory, now))
  }

  ghost predicate StepEnabled(s: SystemState, step: Step, now: Time)
    requires WellFormed(s.table)
  {
    && ClockPassed(s, now)
    && match step
       case InsertRoot(id, _, _) => id !in s.table
       case InsertChild(which, id) => which < |s.pending| && s.pending[which].PendingCreate? && id !in s.table
       case WriteDirectory(which) => which < |s.pending| && s.pending[which].PendingUpdate?
       case MarkSubtree(id, affected) => NoDuplicates(affected) && Elements(affected) == DeleteSet(s.table, id)
       case Send(which) => which < |s.unsent| && s.unsent[which] != []
       case GiveUp(which) => which < |s.unsent|
       case _ => true
  }

  /** The row and the event of a pending create. */
  function Created(p: Pending, id: DirectoryID, now: Time): Directory
    requires p.PendingCreate?
  {
    NewRow(id, p.name, p.metadata, Some(p.parent), now)
  }

  /** What the handler of a pending update writes into the row `d`; into its own copy, for the event. */
  function Written(p: Pending, d: Directory, now: Time): Directory
    requires p.PendingUpdate?
  {
    UpdatedRow(d, Renamed(p.fetched, p.newName), Redescribed(p.fetched, p.newMetadata), now)
  }

  /**
   One store call, with the events it leaves to be sent, or one notification. A lookup that finds nothing ends its
   handler; an insert whose foreign key fails, or an update that finds no row, changes and tells nothing. A handler
   whose notification fails sends no more.
   */
  ghost function Perform(s: SystemState, step: Step, now: Time): SystemState
    requires WellFormed(s.table) && StepEnabled(s, step, now)
  {
    match step
    case InsertRoot(id, name, metadata) => Put(s, CreateEvent, NewRow(id, name, metadata, None, now))
    case FetchParent(parent, name, metadata) =>
      if Live(s.table, parent) then s.(pending := s.pending + [PendingCreate(parent, name, metadata)]) else s
    case InsertChild(which, id) =>
      var p, rest := s.pending[which], s.(pending := Without(s.pending, which));
      if p.parent in s.table then Put(rest, CreateEvent, Created(p, id, now)) else rest
    case FetchDirectory(id, newName, newMetadata) =>
      if Live(s.table, id) then s.(pending := s.pending + [PendingUpdate(s.table[id], newName, newMetadata)]) else s
    case WriteDirectory(which) =>
      var p, rest := s.pending[which], s.(pending := Without(s.pending, which));
      var id := p.fetched.id;
      if id in s.table then
        ToSend(rest.(table := s.table[id := Written(p, s.table[id], now)]),
               [Event(UpdateEvent, Written(p, p.fetched, now))])
      else rest
    case MarkSubtree(id, affected) =>
      ToSend(s.(table := MarkDeleted(s.table, DeleteSet(s.table, id), now)), DeleteEvents(s.table, affected, now))
    case Send(which) =>
      s.(unsent := s.unsent[which := s.unsent[which][1..]], sent := s.sent + [s.unsent[which][0]])
    case GiveUp(which) =>
      s.(unsent := s.unsent[which := []])
  }

  /** Stores a row and leaves its event to be sent. */
  function Put(s: SystemState, kind: EventType, d: Directory): SystemState {
    ToSend(s.(table := s.table[d.id := d]), [Event(kind, d)])
  }

  /** One more handler with events to send. */
  function ToSend(s: SystemState, events: seq<Event>): SystemState {
    s.(written := s.written + events, unsent := s.unsent + [Serials(|s.written|, |events|)])
  }

  function Serials(from: nat, count: nat): seq<nat> {
    seq(count, i requires 0 <= i < count => from + i)
  }

  /** What a handler remembers is about a stored row, and a fetched row was live. */
  ghost predicate Remembers(f: Forest, p: Pending) {
    match p
    case PendingCreate(parent, _, _) => parent in f
    case PendingUpdate(d, _, _) =>
      d.id in f && d.parent == f[d.id].parent && d.createdAt == f[d.id].createdAt && d.deletedAt.None?
  }

  /** Every pending request is about a stored row, so no foreign key can fail and no update misses. */
  ghost predicate PendingStored(s: SystemState) {
    forall k | 0 <= k < |s.pending| :: Remembers(s.table, s.pending[k])
  }

  /** Only what has been written is sent, or waits to be. */
  ghost predicate QueuesWritten(s: SystemState) {
    SentWritten(s) && forall k, i | 0 <= k < |s.unsent| && 0 <= i < |s.unsent[k]| :: s.unsent[k][i] < |s.written|
  }

  ghost predicate Consistent(s: SystemState) {
    WellFormed(s.table) && RootsLive(s.table) && PendingStored(s) && QueuesWritten(s)
  }

  lemma ExtendsKeepsPending(s: SystemState, g: SystemState)
    requires PendingStored(s) && Extends(s.table, g.table) && g.pending == s.pending
    ensures PendingStored(g)
  {
  }

  lemma WithoutKeepsPending(s: SystemState, g: SystemState, k: nat)
    requires PendingStored(s) && Extends(s.table, g.table) && k < |s.pending| && g.pending == Without(s.pending, k)
    ensures PendingStored(g)
  {
    forall j | 0 <= j < |g.pending|
      ensures Remembers(g.table, g.pending[j])
    {
      assert g.pending[j] == s.pending[if j < k then j else j + 1];
    }
  }

  lemma PerformKeepsQueues(s: SystemState, step: Step, now: Time)
    requires WellFormed(s.table) && StepEnabled(s, step, now) && QueuesWritten(s)
    ensures QueuesWritten(Perform(s, step, now))
  {
  }

  /** Every single step keeps the forest a forest, keeps parents, and never undeletes. */
  lemma PerformKeeps(s: SystemState, step: Step, now: Time)
    requires Consistent(s) && StepEnabled(s, step, now)
    ensures Consistent(Perform(s, step, now)) && Extends(s.table, Perform(s, step, now).table)
  {
    var f, t := s.table, Perform(s, step, now);
    PerformKeepsQueues(s, step, now);
    match step
    case InsertRoot(id, name, metadata) =>
      InsertKeeps(f, NewRow(id, name, metadata, None, now));
      ExtendsKeepsPending(s, t);
    case FetchParent(_, _, _) =>
    case InsertChild(which, id) =>
      assert Remembers(f, s.pending[which]);
      InsertKeeps(f, Created(s.pending[which], id, now));
      WithoutKeepsPending(s, t, which);
    case FetchDirectory(_, _, _) =>
    case WriteDirectory(which) =>
      var p := s.pending[which];
      assert Remembers(f, p);
      UpdateKeeps(f, p.fetched.id, Renamed(p.fetched, p.newName), Redescribed(p.fetched, p.newMetadata), now);
      WithoutKeepsPending(s, t, which);
    case MarkSubtree(id, _) =>
      DeleteSetIsLive(f, id);
      MarkKeeps(f, DeleteSet(f, id), now);
      ExtendsKeepsPending(s, t);
    case _ =>
  }

  /** A step at a time of the clock. */
  datatype Timed = Timed(step: Step, now: Time)

  ghost predicate StepsEnabled(s: SystemState, steps: seq<Timed>)
    requires Consistent(s)
    decreases |steps|
  {
    steps == [] ||
    (StepEnabled(s, steps[0].step, steps[0].now) &&
     (PerformKeeps(s, steps[0].step, steps[0].now);
      StepsEnabled(Perform(s, steps[0].step, steps[0].now), steps[1..])))
  }

  ghost function RunSteps(s: SystemState, steps: seq<Timed>): SystemState
    requires Consistent(s) && StepsEnabled(s, steps)
    decreases |steps|
  {
    if steps == [] then s
    else
      PerformKeeps(s, steps[0].step, steps[0].now);
      RunSteps(Perform(s, steps[0].step, steps[0].now), steps[1..])
  }

  lemma {:induction false} DeleteEventsAt(f: Forest, ids: seq<DirectoryID>, now: Time)
    requires Elements(ids) <= f.Keys
    ensures |DeleteEvents(f, ids, now)| == |ids|
    ensures forall i | 0 <= i < |ids| ::
              ids[i] in f && DeleteEvents(f, ids, now)[i] == Event(DeleteEvent, f[ids[i]].(deletedAt := Some(now)))
  {
    if ids != [] {
      ElementsSnoc(ids);
      assert ids[|ids| - 1] in Elements(ids);
      DeleteEventsAt(f, ids[..|ids| - 1], now);
    }
  }

  /** A step takes one tick of the clock. */
  lemma ClockAfter(s: SystemState, step: Step, now: Time)
    requires Consistent(s) && StepEnabled(s, step, now)
    ensures ClockPassed(Perform(s, step, now), now + 1)
  {
    if step.MarkSubtree? {
      DeleteEventsAt(s.table, step.affected, now);
    } else if step.WriteDirectory? {
      assert Remembers(s.table, s.pending[step.which]);
    }
  }

  /** `steps` lead from `s` to `t`. */
  ghost predicate Leads(s: SystemState, steps: seq<Timed>, t: SystemState)
    requires Consistent(s)
  {
    StepsEnabled(s, steps) && RunSteps(s, steps) == t && Consistent(t)
  }

  lemma {:induction false} OneMoreStep(s: SystemState, steps: seq<Timed>, t: SystemState, step: Step, now: Time)
    returns (more: seq<Timed>, u: SystemState)
    requires Consistent(s) && Leads(s, steps, t) && StepEnabled(t, step, now)
    ensures more == steps + [Timed(step, now)] && u == Perform(t, step, now) && Leads(s, more, u)
    ensures ClockPassed(u, now + 1)
    decreases |steps|
  {
    more, u := steps + [Timed(step, now)], Perform(t, step, now);
    PerformKeeps(t, step, now);
    ClockAfter(t, step, now);
    if steps == [] {
      assert more[0] == Timed(step, now) && more[1..] == [];
    } else {
      var first := steps[0];
      PerformKeeps(s, first.step, first.now);
      var rest, v := OneMoreStep(Perform(s, first.step, first.now), steps[1..], t, step, now);
      assert more[0] == first && more[1..] == rest;
    }
  }

  /** From `s` to `t` the server has served `l` as one atomic step, its notifications included. */
  ghost predicate ServedAtOnce(s: SystemState, l: Label, t: SystemState)
    requires Consistent(s) && Consistent(t)
  {
    && t.table == Stored(s.table, l) && t.pending == s.pending && Log(t) == Log(s) + Published(s.table, l)
    && s.unsent <= t.unsent && forall k | |s.unsent| <= k < |t.unsent| :: t.unsent[k] == []
  }

  lemma WithoutLast(pending: seq<Pending>, p: Pending)
    ensures Without(pending + [p], |pending|) == pending
  {
  }

  /** A write with one event, sent immediately. */
  lemma SendLast(s: SystemState, steps: seq<Timed>, t: SystemState, e: Event, later: Time)
    returns (more: seq<Timed>, u: SystemState)
    requires Consistent(s) && Leads(s, steps, t) && ClockPassed(t, later) && t.sent == s.sent
    requires t.written == s.written + [e] && t.unsent == s.unsent + [[|s.written|]]
    ensures more == steps + [Timed(Send(|s.unsent|), later)] && Leads(s, more, u)
    ensures u.table == t.table && u.pending == t.pending && Log(u) == Log(s) + [e] && u.unsent == s.unsent + [[]]
  {
    more, u := OneMoreStep(s, steps, t, Send(|s.unsent|), later);
    assert u.sent == s.sent + [|s.written|];
    assert [|s.written|][1..] == [];
    assert u.unsent == s.unsent + [[]];
  }

  lemma FetchParentFinds(s: SystemState, p: Pending, now: Time) returns (steps: seq<Timed>, t: SystemState)
    requires Consistent(s) && p.PendingCreate? && Live(s.table, p.parent) && ClockPassed(s, now)
    ensures steps == [Timed(FetchParent(p.parent, p.name, p.metadata), now)] && Leads(s, steps, t)
    ensures t == s.(pending := s.pending + [p])
  {
    steps, t := OneMoreStep(s, [], s, FetchParent(p.parent, p.name, p.metadata), now);
  }

  lemma FetchDirectoryFinds(s: SystemState, id: DirectoryID, newName: Option<string>, newMetadata: Option<Metadata>,
                            now: Time)
    returns (steps: seq<Timed>, t: SystemState)
    requires Consistent(s) && Live(s.table, id) && ClockPassed(s, now)
    ensures steps == [Timed(FetchDirectory(id, newName, newMetadata), now)] && Leads(s, steps, t)
    ensures t == s.(pending := s.pending + [PendingUpdate(s.table[id], newName, newMetadata)])
  {
    steps, t := OneMoreStep(s, [], s, FetchDirectory(id, newName, newMetadata), now);
  }

  /** A create below a hidden or an unknown parent ends with its lookup: that is already the server's atomic step. */
  lemma HiddenParentEndsCreate(s: SystemState, id: DirectoryID, p: Pending, now: Time)
    returns (steps: seq<Timed>, t: SystemState)
    requires Consistent(s) && p.PendingCreate? && ClockPassed(s, now)
    requires p.parent in s.table ==> s.table[p.parent].deletedAt.Some?
    ensures steps == [Timed(FetchParent(p.parent, p.name, p.metadata), now)] && Leads(s, steps, t)
    ensures t == s && ServedAtOnce(s, Label(Create(id, p.parent, p.name, p.metadata), now), t)
  {
    steps, t := OneMoreStep(s, [], s, FetchParent(p.parent, p.name, p.metadata), now);
  }

  /** So does an update of a hidden or an unknown directory. */
  lemma HiddenDirectoryEndsUpdate(s: SystemState, id: DirectoryID, newName: Option<string>,
                                  newMetadata: Option<Metadata>, now: Time)
    returns (steps: seq<Timed>, t: SystemState)
    requires Consistent(s) && ClockPassed(s, now) && (id in s.table ==> s.table[id].deletedAt.Some?)
    ensures steps == [Timed(FetchDirectory(id, newName, newMetadata), now)] && Leads(s, steps, t)
    ensures t == s && ServedAtOnce(s, Label(Update(id, newName, newMetadata), now), t)
  {
    steps, t := OneMoreStep(s, [], s, FetchDirectory(id, newName, newMetadata), now);
  }

  /** Uninterrupted, the three steps of a create are the server's atomic step. */
  lemma UninterruptedCreate(s: SystemState, id: DirectoryID, p: Pending, now: Time)
    returns (steps: seq<Timed>, t: SystemState)
    requires Consistent(s) && p.PendingCreate? && Live(s.table, p.parent) && ClockPassed(s, now) && id !in s.table
    ensures steps == [Timed(FetchParent(p.parent, p.name, p.metadata), now), Timed(InsertChild(|s.pending|, id), now),
                      Timed(Send(|s.unsent|), now + 1)]
    ensures Leads(s, steps, t) && ServedAtOnce(s, Label(Create(id, p.parent, p.name, p.metadata), now), t)
  {
    steps, t := FetchParentFinds(s, p, now);
    WithoutLast(s.pending, p);
    steps, t := OneMoreStep(s, steps, t, InsertChild(|s.pending|, id), now);
    assert Serials(|s.written|, 1) == [|s.written|];
    steps, t := SendLast(s, steps, t, Event(CreateEvent, Created(p, id, now)), now + 1);
  }

  /** So are the three steps of an update. */
  lemma UninterruptedUpdate(s: SystemState, id: DirectoryID, newName: Option<string>, newMetadata: Option<Metadata>,
                            now: Time)
    returns (steps: seq<Timed>, t: SystemState)
    requires Consistent(s) && Live(s.table, id) && ClockPassed(s, now)
    ensures steps == [Timed(FetchDirectory(id, newName, newMetadata), now), Timed(WriteDirectory(|s.pending|), now),
                      Timed(Send(|s.unsent|), now + 1)]
    ensures Leads(s, steps, t) && ServedAtOnce(s, Label(Update(id, newName, newMetadata), now), t)
  {
    var p := PendingUpdate(s.table[id], newName, newMetadata);
    steps, t := FetchDirectoryFinds(s, id, newName, newMetadata, now);
    WithoutLast(s.pending, p);
    steps, t := OneMoreStep(s, steps, t, WriteDirectory(|s.pending|), now);
    assert Serials(|s.written|, 1) == [|s.written|];
    steps, t := SendLast(s, steps, t, Event(UpdateEvent, Written(p, s.table[id], now)), now + 1);
  }

  /**
   However the calls interleave: the table stays an acyclic forest whose parents exist and whose roots are
   live, no row is lost, no parent changes, and a deleted row stays deleted.
   */
  lemma {:induction false} ForestUnderInterleaving(s: SystemState, steps: seq<Timed>)
    requires Consistent(s) && StepsEnabled(s, steps)
    ensures Consistent(RunSteps(s, steps)) && Extends(s.table, RunSteps(s, steps).table)
    decreases |steps|
  {
    if steps != [] {
      var t := Perform(s, steps[0].step, steps[0].now);
      PerformKeeps(s, steps[0].step, steps[0].now);
      ForestUnderInterleaving(t, steps[1..]);
      ExtendsTransitive(s.table, t.table, RunSteps(s, steps).table);
    }
  }

  /** No interleaving makes a directory its own ancestor. */
  lemma NoCycleUnderInterleaving(s: SystemState, steps: seq<Timed>, x: DirectoryID)
    requires Consistent(s) && StepsEnabled(s, steps)
    ensures
      var g := RunSteps(s, steps).table;
      WellFormed(g) && !Under(g, true, x, x) && (x in g ==> x !in Ancestors(g, x))
  {
    ForestUnderInterleaving(s, steps);
    var g := RunSteps(s, steps).table;
    if Under(g, true, x, x) {
      UnderIsYounger(g, true, x, x);
      assert false;
    }
    if x in g {
      ChainIsOlder(g, true, x);
    }
  }

  /** The split create keeps live closure exactly when the parent is still live at the insert. */
  lemma InsertChildKeepsClosure(s: SystemState, which: nat, id: DirectoryID, now: Time)
    requires Consistent(s) && StepEnabled(s, InsertChild(which, id), now) && LiveClosure(s.table)
    ensures LiveClosure(Perform(s, InsertChild(which, id), now).table) <==> Live(s.table, s.pending[which].parent)
  {
    assert Remembers(s.table, s.pending[which]);
    InsertKeeps(s.table, Created(s.pending[which], id, now));
  }

  /** Every other store call keeps live closure. */
  lemma OtherStepsKeepClosure(s: SystemState, step: Step, now: Time)
    requires Consistent(s) && StepEnabled(s, step, now) && LiveClosure(s.table) && !step.InsertChild?
    ensures LiveClosure(Perform(s, step, now).table)
  {
    match step
    case InsertRoot(id, name, metadata) =>
      InsertKeeps(s.table, NewRow(id, name, metadata, None, now));
    case WriteDirectory(which) =>
      var p := s.pending[which];
      assert Remembers(s.table, p);
      UpdateKeeps(s.table, p.fetched.id, Renamed(p.fetched, p.newName), Redescribed(p.fetched, p.newMetadata), now);
    case MarkSubtree(id, _) =>
      DeleteKeeps(s.table, id, now);
    case _ =>
  }

  /** Live closure holds now and after each of `steps`. */
  ghost predicate ClosedThroughout(s: SystemState, steps: seq<Timed>)
    requires Consistent(s) && StepsEnabled(s, steps)
    decreases |steps|
  {
    LiveClosure(s.table) &&
    (steps == [] ||
     (PerformKeeps(s, steps[0].step, steps[0].now);
      ClosedThroughout(Perform(s, steps[0].step, steps[0].now), steps[1..])))
  }

  ghost predicate FindsLiveParent(s: SystemState, step: Step) {
    step.InsertChild? && step.which < |s.pending| && s.pending[step.which].PendingCreate? ==>
      Live(s.table, s.pending[step.which].parent)
  }

  /** Each insert of a child among `steps` finds the parent that was looked up before still live. */
  ghost predicate InsertsFindLiveParents(s: SystemState, steps: seq<Timed>)
    requires Consistent(s) && StepsEnabled(s, steps)
    decreases |steps|
  {
    steps == [] ||
    (&& FindsLiveParent(s, steps[0].step)
     && (PerformKeeps(s, steps[0].step, steps[0].now);
         InsertsFindLiveParents(Perform(s, steps[0].step, steps[0].now), steps[1..])))
  }

  /**
   Over every interleaving, live closure is never lost exactly when no parent dies between its lookup and the insert.
   */
  lemma {:induction false} ClosureUnderInterleaving(s: SystemState, steps: seq<Timed>)
    requires Consistent(s) && StepsEnabled(s, steps) && LiveClosure(s.table)
    ensures ClosedThroughout(s, steps) <==> InsertsFindLiveParents(s, steps)
    decreases |steps|
  {
    if steps != [] {
      var step, now := steps[0].step, steps[0].now;
      PerformKeeps(s, step, now);
      if step.InsertChild? {
        InsertChildKeepsClosure(s, step.which, step.id, now);
      } else {
        OtherStepsKeepClosure(s, step, now);
      }
      if LiveClosure(Perform(s, step, now).table) {
        ClosureUnderInterleaving(Perform(s, step, now), steps[1..]);
      }
    }
  }

  lemma ListedDeletable(f: Forest, p: DirectoryID) returns (affected: seq<DirectoryID>)
    requires WellFormed(f)
    ensures NoDuplicates(affected) && Elements(affected) == DeleteSet(f, p)
  {
    DeleteSetIsLive(f, p);
    affected := ByCreation(f, DeleteSet(f, p));
    ByCreationElements(f, DeleteSet(f, p));
    ByCreationOrdered(f, DeleteSet(f, p));
    OrderedHasNoDuplicates(f, affected);
  }

  /** A delete of the live directory `p`, with its rows returned in some order. */
  lemma Marking(s: SystemState, p: DirectoryID, now: Time) returns (mark: Step)
    requires Consistent(s) && Live(s.table, p) && s.table[p].parent.Some? && ClockPassed(s, now)
    ensures mark.MarkSubtree? && mark.id == p && StepEnabled(s, mark, now)
    ensures
      var t := Perform(s, mark, now);
      t.table.Keys == s.table.Keys && t.pending == s.pending && |t.unsent| == |s.unsent| + 1 && !Live(t.table, p)
  {
    var affected := ListedDeletable(s.table, p);
    assert p in DeleteSet(s.table, p);
    mark := MarkSubtree(p, affected);
  }

  /** After `steps`, the directory `p` is deleted. */
  lemma DeletedMeanwhile(s: SystemState, steps: seq<Timed>, t: SystemState, p: DirectoryID, now: Time)
    returns (more: seq<Timed>, u: SystemState)
    requires Consistent(s) && Leads(s, steps, t) && ClockPassed(t, now) && Live(t.table, p) && t.table[p].parent.Some?
    ensures Leads(s, more, u) && |more| == |steps| + 1 && ClockPassed(u, now + 1)
    ensures u.table.Keys == t.table.Keys && u.pending == t.pending && |u.unsent| == |t.unsent| + 1
    ensures !Live(u.table, p)
  {
    var mark := Marking(t, p, now);
    more, u := OneMoreStep(s, steps, t, mark, now);
  }

  lemma InsertEndsOpen(s: SystemState, p: DirectoryID, id: DirectoryID, which: nat, now: Time)
    requires Consistent(s) && StepEnabled(s, InsertChild(which, id), now)
    requires s.pending[which].parent == p && p in s.table && !Live(s.table, p)
    ensures !LiveClosure(Perform(s, InsertChild(which, id), now).table)
  {
    var g := Perform(s, InsertChild(which, id), now).table;
    assert Live(g, id) && g[id].parent == Some(p) && !Live(g, p);
  }

  /**
   Live closure does get lost: in any consistent state, a create that looked its parent up before the parent
   was deleted leaves a live directory below a deleted one.
   */
  lemma CreateDeleteRace(s: SystemState, p: DirectoryID, id: DirectoryID, now: Time)
    returns (steps: seq<Timed>)
    requires Consistent(s) && Live(s.table, p) && s.table[p].parent.Some? && id !in s.table && ClockPassed(s, now)
    ensures StepsEnabled(s, steps) && |steps| == 3
    ensures !LiveClosure(RunSteps(s, steps).table)
  {
    var s1, s2, s3;
    steps, s1 := FetchParentFinds(s, PendingCreate(p, "", map[]), now);
    steps, s2 := DeletedMeanwhile(s, steps, s1, p, now);
    InsertEndsOpen(s2, p, id, |s.pending|, now + 1);
    steps, s3 := OneMoreStep(s, steps, s2, InsertChild(|s.pending|, id), now + 1);
  }
}
