/** The tracked table mirrors the subtree of the base directory, event by event. */
module Mirror {
  import opened Wrappers
  import opened Directories
  import opened Lifecycle
  import opened Ordering
  import opened ServerRuns
  import opened Tracking
  import opened FirstError
  import opened FailingReconciles

  ghost predicate InSubtree(f: Forest, base: DirectoryID, x: DirectoryID)
    requires WellFormed(f)
  {
    x in f && (x == base || Under(f, true, base, x))
  }

  ghost predicate DeletedIn(f: Forest, x: DirectoryID) {
    x in f && f[x].deletedAt.Some?
  }

  /**
   The table holds the subtree of the base in `f`, less what was deleted before seeding at `f0`, with the deletion
   marks of `f`.
   */
  ghost predicate Mirrors(f0: Forest, base: DirectoryID, f: Forest, t: Table)
    requires WellFormed(f)
  {
    && (forall x :: x in t <==> InSubtree(f, base, x) && !DeletedIn(f0, x))
    && (forall x | x in t :: t[x].Some? <==> DeletedIn(f, x))
  }

  /** The table that a complete seeding at `f` leaves: the live subtree, all of it live. */
  ghost function SeedTable(f: Forest, base: DirectoryID): Table
    requires WellFormed(f)
  {
    map x | x in LiveSubtree(f, base) :: None
  }

  ghost predicate AlwaysReconciles(env: Environment) {
    forall k: nat :: env.reconciles(k)
  }

  lemma SeedMirrors(f: Forest, base: DirectoryID)
    requires WellFormed(f)
    ensures Mirrors(f, base, f, SeedTable(f, base))
  {
  }

  /** Adding or rewriting one row moves nothing into or out of the subtree but that row. */
  lemma SubtreeStep(f: Forest, e: Event, base: DirectoryID, x: DirectoryID)
    requires WellFormed(f) && base in f && Fits(f, e) && WellFormed(f[e.directory.id := e.directory])
    ensures
      var g := f[e.directory.id := e.directory];
      && (x in f ==> (InSubtree(g, base, x) <==> InSubtree(f, base, x)))
      && (e.kind.CreateEvent? ==>
            (InSubtree(g, base, e.directory.id) <==>
                e.directory.parent.Some? && InSubtree(f, base, e.directory.parent.value)))
  {
    var d := e.directory;
    var g := f[d.id := d];
    FitsKeeps(f, e);
    if x in f {
      ExtendsKeepsUnder(f, g, base, x);
    }
    if e.kind.CreateEvent? && d.parent.Some? {
      assert ParentIsOlder(g, d.id);
      ExtendsKeepsUnder(f, g, base, d.parent.value);
    }
  }

  /** The table after one more row has entered the forest. */
  ghost function Entered(f: Forest, base: DirectoryID, t: Table, e: Event): Table
    requires WellFormed(f)
  {
    var p := e.directory.parent;
    if p.Some? && InSubtree(f, base, p.value) then t[e.directory.id := None] else t
  }

  lemma EnteredAt(f0: Forest, base: DirectoryID, f: Forest, t: Table, e: Event, x: DirectoryID)
    requires WellFormed(f) && Extends(f0, f) && base in f && Mirrors(f0, base, f, t)
    requires Fits(f, e) && e.kind.CreateEvent? && WellFormed(f[e.directory.id := e.directory])
    ensures
      var g, u := f[e.directory.id := e.directory], Entered(f, base, t, e);
      && (x in u <==> InSubtree(g, base, x) && !DeletedIn(f0, x))
      && (x in u ==> (u[x].Some? <==> DeletedIn(g, x)))
  {
    SubtreeStep(f, e, base, x);
    if x == e.directory.id {
      assert x !in t && x !in f0;
    }
  }

  lemma EnteredMirrors(f0: Forest, base: DirectoryID, f: Forest, t: Table, e: Event)
    requires WellFormed(f) && Extends(f0, f) && base in f && Mirrors(f0, base, f, t)
    requires Fits(f, e) && e.kind.CreateEvent? && WellFormed(f[e.directory.id := e.directory])
    ensures Mirrors(f0, base, f[e.directory.id := e.directory], Entered(f, base, t, e))
  {
    var g, u := f[e.directory.id := e.directory], Entered(f, base, t, e);
    forall x
      ensures x in u <==> InSubtree(g, base, x) && !DeletedIn(f0, x)
      ensures x in u ==> (u[x].Some? <==> DeletedIn(g, x))
    {
      EnteredAt(f0, base, f, t, e, x);
    }
  }

  /**
   A create event enters the table exactly when its directory enters the subtree: its parent is live, so tracked if
   inside.
   */
  lemma CreateMirrored(f0: Forest, base: DirectoryID, f: Forest, env: Environment, s: ControllerState, e: Event)
    requires WellFormed(f) && Extends(f0, f) && base in f && AlwaysReconciles(env)
    requires Mirrors(f0, base, f, s.tracked) && Fits(f, e) && e.kind.CreateEvent?
    ensures ProcessEvent(env, s, e).1
    ensures ProcessEvent(env, s, e).0.tracked == Entered(f, base, s.tracked, e)
  {
    var d := e.directory;
    assert d.id !in s.tracked && !d.IsDeleted();
    if d.parent.Some? {
      assert d.parent.value in s.tracked <==> InSubtree(f, base, d.parent.value);
    }
  }

  /** The table after a row of the forest has been marked deleted. */
  ghost function Marked(f: Forest, base: DirectoryID, t: Table, e: Event, now: Time): Table
    requires WellFormed(f)
  {
    if InSubtree(f, base, e.directory.id) then t[e.directory.id := Some(now)] else t
  }

  lemma MarkedMirrors(f0: Forest, base: DirectoryID, f: Forest, t: Table, e: Event, now: Time)
    requires WellFormed(f) && Extends(f0, f) && base in f && Mirrors(f0, base, f, t)
    requires Fits(f, e) && e.kind.DeleteEvent? && WellFormed(f[e.directory.id := e.directory])
    ensures Mirrors(f0, base, f[e.directory.id := e.directory], Marked(f, base, t, e, now))
  {
    var g, u := f[e.directory.id := e.directory], Marked(f, base, t, e, now);
    forall x
      ensures x in u <==> InSubtree(g, base, x) && !DeletedIn(f0, x)
      ensures x in u ==> (u[x].Some? <==> DeletedIn(g, x))
    {
      SubtreeStep(f, e, base, x);
    }
  }

  /** A delete event marks the row exactly when it is tracked. */
  lemma DeleteMirrored(f0: Forest, base: DirectoryID, f: Forest, env: Environment, s: ControllerState, e: Event)
    requires WellFormed(f) && Extends(f0, f) && base in f && AlwaysReconciles(env)
    requires Mirrors(f0, base, f, s.tracked) && Fits(f, e) && e.kind.DeleteEvent?
    ensures ProcessEvent(env, s, e).1
    ensures ProcessEvent(env, s, e).0.tracked == Marked(f, base, s.tracked, e, env.now(|s.calls|))
  {
    assert e.directory.id in s.tracked <==> InSubtree(f, base, e.directory.id);
  }

  /** An update of a tracked directory is an error; any other is ignored. */
  lemma UpdateMirrored(f0: Forest, base: DirectoryID, f: Forest, env: Environment, s: ControllerState, e: Event)
    requires WellFormed(f) && Extends(f0, f) && base in f
    requires Mirrors(f0, base, f, s.tracked) && Fits(f, e) && e.kind.UpdateEvent?
    requires WellFormed(f[e.directory.id := e.directory])
    ensures ProcessEvent(env, s, e) == (s, !InSubtree(f, base, e.directory.id))
    ensures !InSubtree(f, base, e.directory.id) ==> Mirrors(f0, base, f[e.directory.id := e.directory], s.tracked)
  {
    var d := e.directory;
    var g := f[d.id := d];
    forall x
      ensures InSubtree(g, base, x) <==> InSubtree(f, base, x)
    {
      SubtreeStep(f, e, base, x);
    }
  }

  function Incomings(log: seq<Event>): seq<Input> {
    seq(|log|, i requires 0 <= i < |log| => Incoming(log[i]))
  }

  lemma ProcessAllSnoc(env: Environment, s: ControllerState, log: seq<Event>, e: Event)
    ensures
      var r := ProcessAll(env, s, Incomings(log));
      ProcessAll(env, s, Incomings(log + [e])) == if r.1 then ProcessEvent(env, r.0, e) else r
  {
    var t := ProcessAll(env, s, Incomings(log)).0;
    assert Incomings(log + [e]) == Incomings(log) + [Incoming(e)];
    ProcessAllConcat(env, s, Incomings(log), [Incoming(e)]);
    var r := ProcessEvent(env, t, e);
    assert [Incoming(e)][1..] == [];
    assert ProcessAll(env, r.0, []) == (r.0, true);
    assert ProcessAll(env, t, [Incoming(e)]) == r;
  }

  /** No event of the log updates a directory that lies in the subtree at that point. */
  ghost predicate NoUpdateInside(f0: Forest, base: DirectoryID, log: seq<Event>)
    requires WellFormed(f0) && LogFits(f0, log)
    decreases |log|
  {
    log == [] ||
    (&& NoUpdateInside(f0, base, log[..|log| - 1])
     && (log[|log| - 1].kind.UpdateEvent? ==>
          !InSubtree(Fold(f0, log[..|log| - 1]), base, log[|log| - 1].directory.id)))
  }

  /**
   Events delivered in order and once each: the controller gets through them without an error exactly when
   none of them updates a directory of the subtree, and then the table mirrors the store the events describe.
   */
  lemma {:induction false} LogMirrored(f0: Forest, base: DirectoryID, env: Environment, s: ControllerState,
                                       log: seq<Event>)
    requires WellFormed(f0) && base in f0 && LogFits(f0, log) && AlwaysReconciles(env)
    requires Mirrors(f0, base, f0, s.tracked)
    ensures WellFormed(Fold(f0, log)) && Extends(f0, Fold(f0, log))
    ensures ProcessAll(env, s, Incomings(log)).1 <==> NoUpdateInside(f0, base, log)
    ensures NoUpdateInside(f0, base, log) ==>
              Mirrors(f0, base, Fold(f0, log), ProcessAll(env, s, Incomings(log)).0.tracked)
    decreases |log|
  {
    LogFitsWellFormed(f0, log);
    if log == [] {
      assert Incomings(log) == [];
    } else {
      var before, e := log[..|log| - 1], log[|log| - 1];
      var f := Fold(f0, before);
      LogMirrored(f0, base, env, s, before);
      ProcessAllSnoc(env, s, before, e);
      SplitLast(log);
      var r := ProcessAll(env, s, Incomings(before));
      assert Fold(f0, log) == f[e.directory.id := e.directory];
      if r.1 {
        EventMirrored(f0, base, f, env, r.0, e);
      }
    }
  }

  lemma EventMirrored(f0: Forest, base: DirectoryID, f: Forest, env: Environment, s: ControllerState, e: Event)
    requires WellFormed(f) && Extends(f0, f) && base in f && AlwaysReconciles(env)
    requires Mirrors(f0, base, f, s.tracked) && Fits(f, e) && WellFormed(f[e.directory.id := e.directory])
    ensures ProcessEvent(env, s, e).1 <==> !(e.kind.UpdateEvent? && InSubtree(f, base, e.directory.id))
    ensures ProcessEvent(env, s, e).1 ==>
              Mirrors(f0, base, f[e.directory.id := e.directory], ProcessEvent(env, s, e).0.tracked)
  {
    match e.kind
    case CreateEvent =>
      CreateMirrored(f0, base, f, env, s, e);
      EnteredMirrors(f0, base, f, s.tracked, e);
    case UpdateEvent =>
      UpdateMirrored(f0, base, f, env, s, e);
    case DeleteEvent =>
      DeleteMirrored(f0, base, f, env, s, e);
      MarkedMirrors(f0, base, f, s.tracked, e, env.now(|s.calls|));
    case DeleteHardEvent =>
  }

  lemma {:induction false} NoUpdatesAtAll(f0: Forest, base: DirectoryID, log: seq<Event>)
    requires WellFormed(f0) && LogFits(f0, log) && forall k | 0 <= k < |log| :: !log[k].kind.UpdateEvent?
    ensures NoUpdateInside(f0, base, log)
    decreases |log|
  {
    if log != [] {
      NoUpdatesAtAll(f0, base, log[..|log| - 1]);
    }
  }

  /**
   The server serves any requests while a controller seeded with the live subtree of `base` consumes the
   published events. For every consumed prefix: there has been no error exactly if the prefix has no update
   inside the subtree and every reconcile call has succeeded, and then the table is the subtree of the store
   which that prefix describes.
   */
  lemma MirrorBySimulation(s0: ServerState, labels: seq<Label>, base: DirectoryID, env: Environment, calls: seq<Call>,
                           k: nat)
    returns (since: seq<Event>)
    requires Sound(s0.store) && AllEnabled(s0.store, labels) && base in s0.store
    requires k <= |Run(s0, labels).log| - |s0.log|
    ensures Run(s0, labels).log == s0.log + since && k <= |since| && LogFits(s0.store, since[..k])
    ensures
      var view, seeded := Fold(s0.store, since[..k]), ControllerState(SeedTable(s0.store, base), calls);
      var r := ProcessAll(env, seeded, Incomings(since[..k]));
      var asked := ProcessAll(Obliging(env), seeded, Incomings(since[..k])).0.calls;
      && WellFormed(view)
      && (r.1 <==> NoUpdateInside(s0.store, base, since[..k]) && Succeeds(env, |calls|, |asked|))
      && (r.1 ==> Mirrors(s0.store, base, view, r.0.tracked))
      && (k == |since| ==> view == Run(s0, labels).store)
  {
    var seeded := ControllerState(SeedTable(s0.store, base), calls);
    since := RunKeeps(s0, labels);
    LogFitsPrefix(s0.store, since, k);
    SeedMirrors(s0.store, base);
    LogMirrored(s0.store, base, Obliging(env), seeded, since[..k]);
    ProcessAllCutsOff(env, seeded, Incomings(since[..k]));
    assert k == |since| ==> since[..k] == since;
  }

  /** If nothing but creates and deletes has been published since the seeding, the controller is never stopped. */
  lemma CreatesAndDeletesNeverFail(s0: ServerState, labels: seq<Label>, base: DirectoryID, env: Environment,
                                   calls: seq<Call>)
    returns (since: seq<Event>)
    requires Sound(s0.store) && AllEnabled(s0.store, labels) && base in s0.store && AlwaysReconciles(env)
    requires forall i | |s0.log| <= i < |Run(s0, labels).log| :: !Run(s0, labels).log[i].kind.UpdateEvent?
    ensures Run(s0, labels).log == s0.log + since
    ensures
      var r := ProcessAll(env, ControllerState(SeedTable(s0.store, base), calls), Incomings(since));
      r.1 && WellFormed(Run(s0, labels).store) && Mirrors(s0.store, base, Run(s0, labels).store, r.0.tracked)
  {
    var all := RunKeeps(s0, labels);
    since := MirrorBySimulation(s0, labels, base, env, calls, |all|);
    assert since[..|all|] == since;
    forall i | 0 <= i < |since|
      ensures !since[i].kind.UpdateEvent?
    {
      assert Run(s0, labels).log[|s0.log| + i] == since[i];
    }
    NoUpdatesAtAll(s0.store, base, since);
  }
}
