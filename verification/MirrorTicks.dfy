/** The mirror with full reconciles among the events, from a complete seeding. */
module MirrorTicks {
  import opened Wrappers
  import opened Directories
  import opened Lifecycle
  import opened Ordering
  import opened Storage
  import opened ServerRuns
  import opened Tracking
  import opened RecursiveQuery
  import opened CrdbDriver
  import opened FailingReconciles
  import opened Mirror
  import opened Following
  import opened SideBySide
  import DriverAgreement
  import DriverDeletes

  /** Directories listed to a full reconcile before their create event was consumed. */
  ghost function Ahead(f0: Forest, base: DirectoryID, moments: seq<Moment>): set<DirectoryID> {
    if moments == [] then {}
    else
      var before := moments[..|moments| - 1];
      NextAhead(base, View(f0, before), Ahead(f0, base, before), moments[|moments| - 1])
  }

  ghost function NextAhead(base: DirectoryID, view: Forest, ahead: set<DirectoryID>, m: Moment): set<DirectoryID> {
    if m.Ticked? && |m.seen| >= 2 then ahead + (Elements(ListedBelow(m.seen[1], base)) - view.Keys) else ahead
  }

  /** What is kept is the subtree of `f`, less what was deleted at the seeding, and what reconciles were ahead with. */
  ghost predicate KeepsSubtree(f0: Forest, base: DirectoryID, f: Forest,
                               ahead: set<DirectoryID>, kept: set<DirectoryID>)
    requires WellFormed(f)
  {
    && ahead !! f.Keys
    && forall x :: x in kept <==> (InSubtree(f, base, x) && !DeletedIn(f0, x)) || x in ahead
  }

  lemma ListedIsLive(seen: Forest, base: DirectoryID)
    requires WellFormed(seen) && Live(seen, base)
    ensures forall i | 0 <= i < |ListedBelow(seen, base)| :: Under(seen, false, base, ListedBelow(seen, base)[i])
  {
    var level := LevelList(seen, false, base);
    DriverAgreement.ChildrenAgree(seen, false, base);
    FirstPage(level);
    forall i | 0 <= i < |ListedBelow(seen, base)|
      ensures Under(seen, false, base, level[i])
    {
      assert level[i] in Elements(level);
    }
  }

  /** A listed directory that the view has is in the subtree there, and was live at the seeding if it existed. */
  lemma ListedInSubtree(f0: Forest, base: DirectoryID, f: Forest, seen: seq<Forest>, x: DirectoryID)
    requires WellFormed(f) && Extends(f0, f) && base in f && OnePerRequest(seen, base) && FindsAll(seen, base)
    requires forall i | 0 <= i < |seen| :: WellFormed(seen[i]) && Extends(f, seen[i])
    requires x in Elements(ListedBelow(seen[1], base)) && x in f
    ensures InSubtree(f, base, x) && !DeletedIn(f0, x)
  {
    var page := ListedBelow(seen[1], base);
    ListedIsLive(seen[1], base);
    var i :| 0 <= i < |page| && page[i] == x;
    UnderWithDeleted(seen[1], base, x);
    ExtendsKeepsUnder(f, seen[1], base, x);
    assert Live(seen[2..][i], x);
    assert Extends(f, seen[2 + i]);
  }

  lemma AddListed(f0: Forest, base: DirectoryID, f: Forest, ahead: set<DirectoryID>, kept: set<DirectoryID>,
                  listed: set<DirectoryID>)
    requires WellFormed(f) && KeepsSubtree(f0, base, f, ahead, kept)
    requires forall x | x in listed && x in f :: InSubtree(f, base, x) && !DeletedIn(f0, x)
    requires InSubtree(f, base, base) && !DeletedIn(f0, base)
    ensures KeepsSubtree(f0, base, f, ahead + (listed - f.Keys), kept + {base} + listed)
  {
  }

  lemma TickKeepsSubtree(f0: Forest, base: DirectoryID, f: Forest, ahead: set<DirectoryID>, kept: set<DirectoryID>,
                         m: Moment)
    requires WellFormed(f) && Extends(f0, f) && base in f0 && KeepsSubtree(f0, base, f, ahead, kept)
    requires m.Ticked? && MomentFits(base, f, m) && FindsAll(m.seen, base)
    ensures KeepsSubtree(f0, base, f, NextAhead(base, f, ahead, m), NextKept(base, kept, m))
  {
    var listed := Elements(ListedBelow(m.seen[1], base));
    forall x | x in listed && x in f
      ensures InSubtree(f, base, x) && !DeletedIn(f0, x)
    {
      ListedInSubtree(f0, base, f, m.seen, x);
    }
    LiveInSeen(f0, f, m.seen[0], base);
    AddListed(f0, base, f, ahead, kept, listed);
  }

  lemma LiveInSeen(f0: Forest, f: Forest, seen: Forest, x: DirectoryID)
    requires Extends(f0, f) && Extends(f, seen) && Live(seen, x) && x in f0
    ensures x in f && !DeletedIn(f0, x)
  {
  }

  lemma EventKeepsSubtree(f0: Forest, base: DirectoryID, f: Forest, ahead: set<DirectoryID>, kept: set<DirectoryID>,
                          e: Event)
    requires WellFormed(f) && Extends(f0, f) && base in f0 && KeepsSubtree(f0, base, f, ahead, kept)
    requires Fits(f, e) && WellFormed(f[e.directory.id := e.directory]) && !Disturbs(base, kept, Consumed(e))
    ensures KeepsSubtree(f0, base, f[e.directory.id := e.directory], ahead, NextKept(base, kept, Consumed(e)))
  {
    var d := e.directory;
    var g := f[d.id := d];
    forall x
      ensures x in NextKept(base, kept, Consumed(e)) <==> (InSubtree(g, base, x) && !DeletedIn(f0, x)) || x in ahead
    {
      SubtreeStep(f, e, base, x);
    }
  }

  /** From a complete seeding an undisturbed controller keeps the subtree. */
  lemma {:induction false} SeedKeepsSubtree(f0: Forest, base: DirectoryID, moments: seq<Moment>)
    requires WellFormed(f0) && base in f0 && MomentsFit(f0, base, moments)
    requires Undisturbed(f0, base, LiveSubtree(f0, base), moments)
    ensures WellFormed(View(f0, moments)) && Extends(f0, View(f0, moments))
    ensures KeepsSubtree(f0, base, View(f0, moments), Ahead(f0, base, moments),
                         Kept(base, LiveSubtree(f0, base), moments))
    decreases |moments|
  {
    if moments != [] {
      var before, m := moments[..|moments| - 1], moments[|moments| - 1];
      var f, ahead, kept := View(f0, before), Ahead(f0, base, before), Kept(base, LiveSubtree(f0, base), before);
      SeedKeepsSubtree(f0, base, before);
      NextViewKeeps(f0, base, f, m);
      if m.Consumed? {
        EventKeepsSubtree(f0, base, f, ahead, kept, m.event);
      } else {
        TickKeepsSubtree(f0, base, f, ahead, kept, m);
      }
    }
  }

  lemma ListedAreStored(f: Forest, base: DirectoryID)
    requires WellFormed(f)
    ensures Elements(ListedBelow(f, base)) <= f.Keys
  {
    var level := LevelList(f, false, base);
    FirstPage(level);
    RowsAreNew(f, Children(false), {base}, {base});
    forall x | x in Elements(ListedBelow(f, base))
      ensures x in f
    {
      assert x in Elements(level);
    }
  }

  lemma AheadSnoc(f0: Forest, base: DirectoryID, moments: seq<Moment>, m: Moment)
    ensures Ahead(f0, base, moments + [m]) == NextAhead(base, View(f0, moments), Ahead(f0, base, moments), m)
  {
    assert (moments + [m])[..|moments + [m]| - 1] == moments;
  }

  /** What reconciles were ahead with is stored. */
  lemma ActStoresAhead(f0: Forest, base: DirectoryID, j: Joint, action: Action)
    requires WellFormed(f0) && InStep(f0, base, j) && ActionEnabled(j, base, action)
    requires Ahead(f0, base, j.moments) <= Present(j).Keys
    ensures Ahead(f0, base, Act(j, base, action).moments) <= Present(Act(j, base, action)).Keys
  {
    match action
    case ServeRequest(l) =>
      ServeStoresAhead(f0, base, j, l);
    case ConsumeNext =>
      ConsumeStoresAhead(f0, base, j);
    case Reconcile(picks) =>
      ReconcileStoresAhead(f0, base, j, picks);
  }

  lemma ServeStoresAhead(f0: Forest, base: DirectoryID, j: Joint, l: Label)
    requires WellFormed(f0) && InStep(f0, base, j) && Enabled(Present(j), l)
    ensures
      var k := Act(j, base, ServeRequest(l));
      k.past != [] && k.moments == j.moments && Present(j).Keys <= Present(k).Keys
  {
    StoredKeeps(Present(j), l);
    assert (j.past + [Stored(Present(j), l)])[|j.past|] == Stored(Present(j), l);
  }

  lemma ConsumeStoresAhead(f0: Forest, base: DirectoryID, j: Joint)
    requires WellFormed(f0) && InStep(f0, base, j) && j.consumed < |j.published|
    ensures
      var k := Act(j, base, ConsumeNext);
      k.past != [] && Ahead(f0, base, k.moments) == Ahead(f0, base, j.moments) && Present(k) == Present(j)
  {
    AheadSnoc(f0, base, j.moments, Consumed(j.published[j.consumed]));
  }

  lemma ReconcileStoresAhead(f0: Forest, base: DirectoryID, j: Joint, picks: seq<nat>)
    requires WellFormed(f0) && InStep(f0, base, j) && Picked(j, base, picks)
    requires Ahead(f0, base, j.moments) <= Present(j).Keys
    ensures
      var k := Act(j, base, Reconcile(picks));
      k.past != [] && Ahead(f0, base, k.moments) <= Present(k).Keys
  {
    var k, m := ActReconcile(j, base, picks);
    AheadSnoc(f0, base, j.moments, m);
    SeenIsStored(j.past, Fold(f0, j.published[..j.consumed]), picks[1]);
    ListedAreStored(j.past[picks[1]], base);
  }

  lemma SeenIsStored(past: seq<Forest>, view: Forest, i: nat)
    requires PastGrows(past, view) && i < |past|
    ensures WellFormed(past[i]) && past[i].Keys <= past[|past| - 1].Keys
  {
    assert past[i] in past && Between(view, past[i], past[|past| - 1]);
  }

  lemma {:induction false} RunStoresAhead(f0: Forest, base: DirectoryID, j: Joint, actions: seq<Action>)
    requires WellFormed(f0) && InStep(f0, base, j) && ActionsEnabled(f0, base, j, actions)
    requires Ahead(f0, base, j.moments) <= Present(j).Keys
    ensures RunActions(f0, base, j, actions).past != []
    ensures Ahead(f0, base, RunActions(f0, base, j, actions).moments) <= Present(RunActions(f0, base, j, actions)).Keys
    decreases |actions|
  {
    if actions != [] {
      ActKeepsStep(f0, base, j, actions[0]);
      ActStoresAhead(f0, base, j, actions[0]);
      RunStoresAhead(f0, base, Act(j, base, actions[0]), actions[1..]);
    }
  }

  /** Caught up and undisturbed, a controller that has kept the subtree since a complete seeding mirrors the store. */
  lemma CaughtUp(f0: Forest, base: DirectoryID, f: Forest, ahead: set<DirectoryID>, kept: set<DirectoryID>, t: Table)
    requires WellFormed(f) && KeepsSubtree(f0, base, f, ahead, kept) && ahead <= f.Keys
    requires t.Keys == kept && Accurate(f, t)
    ensures Mirrors(f0, base, f, t)
  {
  }

  /**
   From a complete seeding, in any interleaving of server, events and full reconciles: there has been no error exactly
   if every reconcile call has succeeded and nothing has disturbed the controller. Then the table is the subtree of the
   consumed view, with what reconciles were ahead with, and once everything published has been consumed it mirrors the
   store.
   */
  lemma MirrorWithTicks(f0: Forest, base: DirectoryID, actions: seq<Action>, env: Environment, calls: seq<Call>)
    requires Sound(f0) && base in f0 && ActionsEnabled(f0, base, Started(f0, base), actions)
    ensures
      var j, seeded := RunActions(f0, base, Started(f0, base), actions), ControllerState(SeedTable(f0, base), calls);
      var view, r := View(f0, j.moments), ProcessAll(env, seeded, Inputs(j.moments));
      var asked := ProcessAll(Obliging(env), seeded, Inputs(j.moments)).0.calls;
      && InStep(f0, base, j) && WellFormed(view) && WellFormed(Present(j))
      && (r.1 <==> Undisturbed(f0, base, LiveSubtree(f0, base), j.moments) && Succeeds(env, |calls|, |asked|))
      && (r.1 ==>
            KeepsSubtree(f0, base, view, Ahead(f0, base, j.moments), r.0.tracked.Keys) && Accurate(view, r.0.tracked))
      && (r.1 && j.consumed == |j.published| ==> Mirrors(f0, base, Present(j), r.0.tracked))
  {
    var j, seeded := RunActions(f0, base, Started(f0, base), actions), ControllerState(SeedTable(f0, base), calls);
    assert SeedTable(f0, base).Keys == LiveSubtree(f0, base);
    FollowSideBySide(f0, base, actions, env, seeded);
    RunStoresAhead(f0, base, Started(f0, base), actions);
    if Undisturbed(f0, base, LiveSubtree(f0, base), j.moments) {
      SeedKeepsSubtree(f0, base, j.moments);
      AllConsumed(f0, base, j);
      var t, kept := ProcessAll(env, seeded, Inputs(j.moments)).0.tracked, Kept(base, LiveSubtree(f0, base), j.moments);
      if j.consumed == |j.published| && t.Keys == kept && Accurate(Present(j), t) {
        CaughtUp(f0, base, Present(j), Ahead(f0, base, j.moments), t.Keys, t);
      }
    }
  }

  /** Once all that was published has been consumed, the view is the store. */
  lemma AllConsumed(f0: Forest, base: DirectoryID, j: Joint)
    requires WellFormed(f0) && InStep(f0, base, j)
    ensures WellFormed(Present(j))
    ensures j.consumed == |j.published| ==> View(f0, j.moments) == Present(j)
  {
    assert j.published[..|j.published|] == j.published;
  }

  lemma OnlyChild(f0: Forest, base: DirectoryID, d: Directory)
    requires Sound(f0) && Live(f0, base) && Descendants(f0, false, base) == {}
    requires d.id !in f0 && d.parent == Some(base) && d.deletedAt.None?
    requires Sound(f0[d.id := d]) && Extends(f0, f0[d.id := d])
    ensures Descendants(f0[d.id := d], false, base) == {d.id}
  {
    var g := f0[d.id := d];
    forall x
      ensures x in Descendants(g, false, base) <==> x == d.id
    {
      if x in f0 && Live(f0, x) {
        LiveUnder(g, base, x);
        LiveUnder(f0, base, x);
        ExtendsKeepsUnder(f0, g, base, x);
        assert x !in Descendants(f0, false, base);
      }
    }
  }

  lemma OnlyOneListed(f: Forest, base: DirectoryID, x: DirectoryID)
    requires WellFormed(f) && Live(f, base) && Descendants(f, false, base) == {x}
    ensures ListedBelow(f, base) == [x]
  {
    var level := LevelList(f, false, base);
    DriverAgreement.ChildrenAgree(f, false, base);
    NoDuplicatesCardinality(level);
    assert level[0] in Elements(level);
    assert level == [x];
    FirstPage(level);
    assert level[..1] == level;
  }

  lemma PicksOfLast(past: seq<Forest>, base: DirectoryID, id: DirectoryID) returns (picks: seq<nat>)
    requires |past| == 2 && ListedBelow(past[1], base) == [id]
    ensures |picks| == 3 && forall i | 0 <= i < |picks| :: picks[i] == 1
    ensures OnePerRequest(Seen(past, picks), base) && Seen(past, picks)[1] == past[1]
  {
    picks := [1, 1, 1];
  }

  lemma ThenConsumed(f0: Forest, base: DirectoryID, j: Joint) returns (k: Joint)
    requires WellFormed(f0) && InStep(f0, base, j) && j.consumed < |j.published|
    ensures Reaches(f0, base, j, [ConsumeNext], k)
    ensures k.moments == j.moments + [Consumed(j.published[j.consumed])]
  {
    k := Act(j, base, ConsumeNext);
    ConsumeKeepsStep(f0, base, j);
    ReachesCons(f0, base, j, ConsumeNext, [], k);
    assert [ConsumeNext] + [] == [ConsumeNext];
  }

  lemma ThenReconciled(f0: Forest, base: DirectoryID, id: DirectoryID, j: Joint)
    returns (actions: seq<Action>, k: Joint, m: Moment)
    requires WellFormed(f0) && InStep(f0, base, j) && j.consumed < |j.published|
    requires |j.past| == 2 && ListedBelow(j.past[1], base) == [id]
    ensures |actions| == 2 && Reaches(f0, base, j, actions, k)
    ensures k.moments == j.moments + [m] + [Consumed(j.published[j.consumed])]
    ensures m.Ticked? && |m.seen| >= 2 && ListedBelow(m.seen[1], base) == [id]
  {
    var picks := PicksOfLast(j.past, base, id);
    var next;
    next, m := ActReconcile(j, base, picks);
    ReconcileKeepsStep(f0, base, j, picks);
    k := ThenConsumed(f0, base, next);
    ReachesCons(f0, base, j, Reconcile(picks), [ConsumeNext], k);
    actions := [Reconcile(picks)] + [ConsumeNext];
  }

  lemma CreateServed(f0: Forest, base: DirectoryID, id: DirectoryID, now: Time) returns (l: Label, j: Joint, e: Event)
    requires Sound(f0) && Live(f0, base) && Descendants(f0, false, base) == {} && id !in f0 && Newer(f0, now)
    ensures ActionEnabled(Started(f0, base), base, ServeRequest(l))
    ensures j == Act(Started(f0, base), base, ServeRequest(l)) && InStep(f0, base, j)
    ensures e.kind.CreateEvent? && e.directory.id == id && j.published == [e] && j.consumed == 0 && j.moments == []
    ensures |j.past| == 2 && ListedBelow(j.past[1], base) == [id]
  {
    l := Label(Create(id, base, "", map[]), now);
    e := Event(CreateEvent, NewRow(id, "", map[], Some(base), now));
    StoredKeeps(f0, l);
    OnlyChild(f0, base, e.directory);
    OnlyOneListed(f0[id := e.directory], base, id);
    ActKeepsStep(f0, base, Started(f0, base), ServeRequest(l));
    j := Act(Started(f0, base), base, ServeRequest(l));
    assert j.past == [f0, f0[id := e.directory]];
  }

  /** A child of the base is created, listed to a full reconcile, and only then its create event is consumed. */
  lemma Overtaken(f0: Forest, base: DirectoryID, id: DirectoryID, now: Time)
    returns (actions: seq<Action>, m: Moment, e: Event)
    requires Sound(f0) && Live(f0, base) && Descendants(f0, false, base) == {} && id !in f0 && Newer(f0, now)
    ensures |actions| == 3 && ActionsEnabled(f0, base, Started(f0, base), actions)
    ensures RunActions(f0, base, Started(f0, base), actions).moments == [m, Consumed(e)]
    ensures e.kind.CreateEvent? && e.directory.id == id
    ensures m.Ticked? && |m.seen| >= 2 && ListedBelow(m.seen[1], base) == [id]
  {
    var l, j, rest, k;
    l, j, e := CreateServed(f0, base, id, now);
    rest, k, m := ThenReconciled(f0, base, id, j);
    actions := StartsWith(f0, base, ServeRequest(l), rest, k);
  }

  lemma StartsWith(f0: Forest, base: DirectoryID, first: Action, rest: seq<Action>, k: Joint)
    returns (actions: seq<Action>)
    requires Sound(f0) && ActionEnabled(Started(f0, base), base, first)
    requires InStep(f0, base, Act(Started(f0, base), base, first))
    requires Reaches(f0, base, Act(Started(f0, base), base, first), rest, k)
    ensures |actions| == |rest| + 1 && ActionsEnabled(f0, base, Started(f0, base), actions)
    ensures RunActions(f0, base, Started(f0, base), actions) == k
  {
    ReachesCons(f0, base, Started(f0, base), first, rest, k);
    actions := [first] + rest;
  }

  /** Then the controller errs: below a base without descendants, such as the one leaf of the smallest store. */
  lemma OvertakenErrs(f0: Forest, base: DirectoryID, id: DirectoryID, now: Time, env: Environment, calls: seq<Call>)
    returns (actions: seq<Action>)
    requires Sound(f0) && Live(f0, base) && Descendants(f0, false, base) == {} && id !in f0 && Newer(f0, now)
    ensures |actions| == 3 && ActionsEnabled(f0, base, Started(f0, base), actions)
    ensures
      var j := RunActions(f0, base, Started(f0, base), actions);
      !ProcessAll(env, ControllerState(SeedTable(f0, base), calls), Inputs(j.moments)).1
  {
    var m, e;
    actions, m, e := Overtaken(f0, base, id, now);
    MirrorWithTicks(f0, base, actions, env, calls);
    var moments := [m, Consumed(e)];
    assert moments[..1] == [m] && [m][..0] == [];
    var kept := Kept(base, LiveSubtree(f0, base), [m]);
    assert id in Elements(ListedBelow(m.seen[1], base));
    assert Disturbs(base, kept, Consumed(e));
  }

  lemma SmallestStoreErrs(env: Environment) returns (actions: seq<Action>)
    ensures Sound(DriverDeletes.Star(0)) && |actions| == 3
    ensures ActionsEnabled(DriverDeletes.Star(0), 1, Started(DriverDeletes.Star(0), 1), actions)
    ensures
      var j := RunActions(DriverDeletes.Star(0), 1, Started(DriverDeletes.Star(0), 1), actions);
      !ProcessAll(env, ControllerState(SeedTable(DriverDeletes.Star(0), 1), []), Inputs(j.moments)).1
  {
    DriverDeletes.StarShape(0);
    actions := OvertakenErrs(DriverDeletes.Star(0), 1, 2, 3, env, []);
  }
}
