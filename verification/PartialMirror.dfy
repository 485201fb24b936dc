/**
 What is mirrored after a seeding that has missed some of the subtree: full reconciles of an empty table read one page
 only.
 */
module PartialMirror {
  import opened Wrappers
  import opened Directories
  import opened Lifecycle
  import opened Ordering
  import opened Storage
  import opened ServerRuns
  import opened Tracking
  import opened CrdbDriver
  import opened FailingReconciles
  import opened Mirror
  import opened Seeding
  import opened Following
  import DriverAgreement

  /** Seeded, or created since the seeding below a directory that is covered in turn. */
  ghost predicate Covered(f0: Forest, seeded: set<DirectoryID>, f: Forest, x: DirectoryID)
    requires WellFormed(f)
    decreases if x in f then f[x].createdAt else 0
  {
    && x in f
    && (x in seeded ||
        (x !in f0 && f[x].parent.Some? && ParentIsOlder(f, x) && Covered(f0, seeded, f, f[x].parent.value)))
  }

  /** A live directory of the subtree that was not seeded, or anything below one. */
  ghost predicate BelowUnseeded(f0: Forest, base: DirectoryID, seeded: set<DirectoryID>, f: Forest, x: DirectoryID)
    requires WellFormed(f0) && WellFormed(f)
  {
    exists u | u in LiveSubtree(f0, base) - seeded :: x == u || Under(f, true, u, x)
  }

  /** The base and other live directories of its subtree, each with its parent. */
  ghost predicate SeededFrom(f0: Forest, base: DirectoryID, seeded: set<DirectoryID>)
    requires WellFormed(f0)
  {
    && base in seeded && seeded <= LiveSubtree(f0, base)
    && forall x | x in seeded && x != base :: f0[x].parent.Some? && f0[x].parent.value in seeded
  }

  /** What has been created since then was created below directories that were live. */
  ghost predicate NewBelowLive(f0: Forest, f: Forest) {
    forall x | x in f && x !in f0 && f[x].parent.Some? :: !DeletedIn(f0, f[x].parent.value)
  }

  lemma {:induction false} SeededAbove(f0: Forest, base: DirectoryID, seeded: set<DirectoryID>,
                                        u: DirectoryID, x: DirectoryID)
    requires WellFormed(f0) && SeededFrom(f0, base, seeded)
    requires u in LiveSubtree(f0, base) && x in seeded && Under(f0, true, u, x)
    ensures u in seeded
    decreases if x in f0 then f0[x].createdAt else 0
  {
    UnderIsYounger(f0, true, u, x);
    if u != base {
      UnderIsYounger(f0, true, base, u);
    }
    assert x != base;
    assert ParentIsOlder(f0, x);
    if f0[x].parent.value != u {
      SeededAbove(f0, base, seeded, u, f0[x].parent.value);
    }
  }

  lemma OldCovered(f0: Forest, base: DirectoryID, seeded: set<DirectoryID>, f: Forest, x: DirectoryID)
    requires WellFormed(f0) && WellFormed(f) && Extends(f0, f) && SeededFrom(f0, base, seeded) && x in f0
    ensures x in seeded <==> InSubtree(f, base, x) && !DeletedIn(f0, x) && !BelowUnseeded(f0, base, seeded, f, x)
  {
    ExtendsKeepsUnder(f0, f, base, x);
    if x in seeded {
      forall u | u in LiveSubtree(f0, base) - seeded
        ensures x != u && !Under(f, true, u, x)
      {
        ExtendsKeepsUnder(f0, f, u, x);
        if Under(f0, true, u, x) {
          SeededAbove(f0, base, seeded, u, x);
          assert false;
        }
      }
    } else if InSubtree(f, base, x) && !DeletedIn(f0, x) {
      assert x in LiveSubtree(f0, base) - seeded;
    }
  }

  /** The subtree, less what was deleted at the seeding and less the unseeded live directories with all below them. */
  ghost predicate InSeededPart(f0: Forest, base: DirectoryID, seeded: set<DirectoryID>, f: Forest, x: DirectoryID)
    requires WellFormed(f0) && WellFormed(f)
  {
    InSubtree(f, base, x) && !DeletedIn(f0, x) && !BelowUnseeded(f0, base, seeded, f, x)
  }

  /** That is what is covered. */
  lemma {:induction false} CoveredMeaning(f0: Forest, base: DirectoryID, seeded: set<DirectoryID>,
                                           f: Forest, x: DirectoryID)
    requires WellFormed(f0) && WellFormed(f) && Extends(f0, f) && SeededFrom(f0, base, seeded) && NewBelowLive(f0, f)
    ensures Covered(f0, seeded, f, x) <==> InSeededPart(f0, base, seeded, f, x)
    decreases if x in f then f[x].createdAt else 0
  {
    if x in f0 {
      OldCovered(f0, base, seeded, f, x);
    } else if x in f {
      if f[x].parent.Some? {
        assert ParentIsOlder(f, x);
        CoveredMeaning(f0, base, seeded, f, f[x].parent.value);
      }
    }
  }

  lemma {:induction false} CoveredStays(f0: Forest, seeded: set<DirectoryID>, f: Forest, g: Forest, x: DirectoryID)
    requires WellFormed(f) && WellFormed(g) && Extends(f, g) && x in f
    ensures Covered(f0, seeded, g, x) <==> Covered(f0, seeded, f, x)
    decreases f[x].createdAt
  {
    if f[x].parent.Some? {
      assert ParentIsOlder(f, x) && ParentIsOlder(g, x);
      CoveredStays(f0, seeded, f, g, f[x].parent.value);
    }
  }

  function Consumings(log: seq<Event>): seq<Moment> {
    seq(|log|, i requires 0 <= i < |log| => Consumed(log[i]))
  }

  /** What is kept over `log` is covered in `f`, which the log describes. */
  ghost predicate KeepsCovered(f0: Forest, base: DirectoryID, seeded: set<DirectoryID>, log: seq<Event>, f: Forest)
    requires WellFormed(f)
  {
    && View(f0, Consumings(log)) == f && MomentsFit(f0, base, Consumings(log))
    && forall x :: x in Kept(base, seeded, Consumings(log)) <==> Covered(f0, seeded, f, x)
  }

  lemma KeepsCoveredSnoc(f0: Forest, base: DirectoryID, seeded: set<DirectoryID>, log: seq<Event>, f: Forest, e: Event)
    requires WellFormed(f) && Extends(f0, f) && NewBelowLive(f0, f) && KeepsCovered(f0, base, seeded, log, f)
    requires Fits(f, e) && seeded <= f0.Keys && WellFormed(f[e.directory.id := e.directory])
    ensures NewBelowLive(f0, f[e.directory.id := e.directory])
    ensures KeepsCovered(f0, base, seeded, log + [e], f[e.directory.id := e.directory])
  {
    assert Consumings(log + [e]) == Consumings(log) + [Consumed(e)];
    MomentsSnoc(f0, base, seeded, Consumings(log), Consumed(e));
    EventCovers(f0, base, seeded, f, e, Kept(base, seeded, Consumings(log)));
  }

  /** Events alone cover what they create below covered directories. */
  lemma {:induction false} KeptIsCovered(f0: Forest, base: DirectoryID, seeded: set<DirectoryID>, log: seq<Event>)
    requires WellFormed(f0) && LogFits(f0, log) && seeded <= f0.Keys
    ensures WellFormed(Fold(f0, log)) && Extends(f0, Fold(f0, log)) && NewBelowLive(f0, Fold(f0, log))
    ensures KeepsCovered(f0, base, seeded, log, Fold(f0, log))
    decreases |log|
  {
    LogFitsWellFormed(f0, log);
    if log != [] {
      var before, e := log[..|log| - 1], log[|log| - 1];
      LastFits(f0, log);
      KeptIsCovered(f0, base, seeded, before);
      SplitLast(log);
      KeepsCoveredSnoc(f0, base, seeded, before, Fold(f0, before), e);
    }
  }

  lemma EventCovers(f0: Forest, base: DirectoryID, seeded: set<DirectoryID>, f: Forest, e: Event,
                    kept: set<DirectoryID>)
    requires WellFormed(f) && Extends(f0, f) && NewBelowLive(f0, f) && Fits(f, e) && seeded <= f0.Keys
    requires forall x :: x in kept <==> Covered(f0, seeded, f, x)
    requires WellFormed(f[e.directory.id := e.directory])
    ensures
      var g := f[e.directory.id := e.directory];
      && NewBelowLive(f0, g)
      && forall x :: x in NextKept(base, kept, Consumed(e)) <==> Covered(f0, seeded, g, x)
  {
    var d := e.directory;
    var g := f[d.id := d];
    FitsKeeps(f, e);
    forall x
      ensures x in NextKept(base, kept, Consumed(e)) <==> Covered(f0, seeded, g, x)
    {
      if x in f {
        CoveredStays(f0, seeded, f, g, x);
      } else if x == d.id && d.parent.Some? {
        assert ParentIsOlder(g, x);
        CoveredStays(f0, seeded, f, g, d.parent.value);
      }
    }
  }

  /** No event of the log updates a directory that is covered at that point. */
  ghost predicate NoUpdateCovered(f0: Forest, seeded: set<DirectoryID>, log: seq<Event>)
    requires WellFormed(f0) && LogFits(f0, log)
    decreases |log|
  {
    log == [] ||
    (&& NoUpdateCovered(f0, seeded, log[..|log| - 1])
     && (log[|log| - 1].kind.UpdateEvent? ==>
           !Covered(f0, seeded, Fold(f0, log[..|log| - 1]), log[|log| - 1].directory.id)))
  }

  lemma {:induction false} UndisturbedMeaning(f0: Forest, base: DirectoryID, seeded: set<DirectoryID>, log: seq<Event>)
    requires WellFormed(f0) && LogFits(f0, log) && seeded <= f0.Keys && MomentsFit(f0, base, Consumings(log))
    ensures Undisturbed(f0, base, seeded, Consumings(log)) <==> NoUpdateCovered(f0, seeded, log)
    decreases |log|
  {
    if log != [] {
      var before, e := log[..|log| - 1], log[|log| - 1];
      assert Consumings(log)[..|log| - 1] == Consumings(before);
      UndisturbedMeaning(f0, base, seeded, before);
      KeptIsCovered(f0, base, seeded, before);
    }
  }

  /** With a reconciler that never fails. */
  lemma PartlyFollowed(f0: Forest, base: DirectoryID, seeded: set<DirectoryID>, env: Environment, s: ControllerState,
                       log: seq<Event>)
    returns (f: Forest, r: StepResult)
    requires WellFormed(f0) && LogFits(f0, log) && SeededFrom(f0, base, seeded) && TracksLive(s.tracked, seeded)
    ensures f == Fold(f0, log) && WellFormed(f) && r == ProcessAll(Obliging(env), s, Incomings(log))
    ensures r.1 <==> NoUpdateCovered(f0, seeded, log)
    ensures r.1 ==>
              && (forall x :: x in r.0.tracked <==> InSeededPart(f0, base, seeded, f, x))
              && Accurate(f, r.0.tracked)
  {
    KeptMeaning(f0, base, seeded, log);
    UndisturbedMeaning(f0, base, seeded, log);
    assert Inputs(Consumings(log)) == Incomings(log);
    MomentsFollowed(f0, base, Obliging(env), s, Consumings(log));
    f, r := Fold(f0, log), ProcessAll(Obliging(env), s, Incomings(log));
  }

  /**
   After any seeding, events in order and once each: the controller gets through without an error exactly if none of
   them updates a covered directory and every reconcile call succeeds. Then the table holds the subtree, less what was
   deleted at the seeding and less the unseeded live directories with all below them, with the right deletion marks.
   */
  lemma PartlyMirrored(f0: Forest, base: DirectoryID, seeded: set<DirectoryID>, env: Environment, s: ControllerState,
                       log: seq<Event>)
    requires WellFormed(f0) && LogFits(f0, log) && SeededFrom(f0, base, seeded) && TracksLive(s.tracked, seeded)
    ensures
      var f, r := Fold(f0, log), ProcessAll(env, s, Incomings(log));
      var asked := ProcessAll(Obliging(env), s, Incomings(log)).0.calls;
      && WellFormed(f)
      && (r.1 <==> NoUpdateCovered(f0, seeded, log) && Succeeds(env, |s.calls|, |asked|))
      && (r.1 ==>
            && (forall x :: x in r.0.tracked <==> InSeededPart(f0, base, seeded, f, x))
            && Accurate(f, r.0.tracked))
  {
    var f, ideal := PartlyFollowed(f0, base, seeded, env, s, log);
    ProcessAllCutsOff(env, s, Incomings(log));
  }

  lemma KeptMeaning(f0: Forest, base: DirectoryID, seeded: set<DirectoryID>, log: seq<Event>)
    requires WellFormed(f0) && LogFits(f0, log) && SeededFrom(f0, base, seeded)
    ensures WellFormed(Fold(f0, log))
    ensures View(f0, Consumings(log)) == Fold(f0, log) && MomentsFit(f0, base, Consumings(log))
    ensures forall x :: x in Kept(base, seeded, Consumings(log)) <==> InSeededPart(f0, base, seeded, Fold(f0, log), x)
  {
    KeptIsCovered(f0, base, seeded, log);
    forall x
      ensures x in Kept(base, seeded, Consumings(log)) <==> InSeededPart(f0, base, seeded, Fold(f0, log), x)
    {
      CoveredMeaning(f0, base, seeded, Fold(f0, log), x);
    }
  }

  lemma ListedIsSeeded(f0: Forest, base: DirectoryID, i: nat)
    requires WellFormed(f0) && Live(f0, base) && i < |ListedBelow(f0, base)|
    ensures
      var page := ListedBelow(f0, base);
      && page[i] in LiveSubtree(f0, base) && f0[page[i]].parent.Some?
      && f0[page[i]].parent.value in {base} + Elements(page)
  {
    var page, level := ListedBelow(f0, base), LevelList(f0, false, base);
    DriverAgreement.FirstPageParentsFirst(f0, base, Built([]));
    DriverAgreement.ChildrenAgree(f0, false, base);
    FirstPage(level);
    assert level[i] in Elements(level);
    UnderWithDeleted(f0, base, page[i]);
    assert ParentBefore(f0, {base}, page[i], page[..i]);
  }

  lemma PageIsSeeded(f0: Forest, base: DirectoryID)
    requires WellFormed(f0) && Live(f0, base)
    ensures SeededFrom(f0, base, {base} + Elements(ListedBelow(f0, base)))
  {
    var page := ListedBelow(f0, base);
    forall i | 0 <= i < |page|
      ensures page[i] in LiveSubtree(f0, base) && f0[page[i]].parent.Some?
      ensures f0[page[i]].parent.value in {base} + Elements(page)
    {
      ListedIsSeeded(f0, base, i);
    }
  }

  /**
   A controller that starts from an empty table at store `f0` and then consumes the log: what it misses for good are
   the live directories beyond the first page, with everything that is ever created below them.
   */
  lemma TruncatedRun(f0: Forest, base: DirectoryID, env: Environment, a: ClientAnswers, log: seq<Event>)
    requires WellFormed(f0) && Live(f0, base) && AnswersFrom(f0, base, a) && LogFits(f0, log) && AlwaysReconciles(env)
    ensures
      var seeded, f := {base} + Elements(a.page.value), Fold(f0, log);
      var r := RunController(env, ControllerState(map[], []), Some(a), Incomings(log));
      && WellFormed(f)
      && (r.1 <==> NoUpdateCovered(f0, seeded, log))
      && (r.1 ==>
            && (forall x :: x in r.0.tracked <==> InSeededPart(f0, base, seeded, f, x))
            && Accurate(f, r.0.tracked))
  {
    SeedingTracks(f0, base, env, a);
    PageIsSeeded(f0, base);
    var start := Initialize(env, ControllerState(map[], []), a).0;
    PartlyMirrored(f0, base, {base} + Elements(a.page.value), env, start, log);
  }
}
