/** Which directories the controller can come to track. */
module TrackedShape {
  import opened Wrappers
  import opened Directories
  import opened Ordering
  import opened Storage
  import opened ServerRuns
  import opened Tracking
  import opened CrdbDriver
  import DriverAgreement

  /** Only the base and its descendants are tracked, and each of them but the base together with its parent. */
  ghost predicate Shaped(u: Forest, base: DirectoryID, t: Table)
    requires WellFormed(u)
  {
    forall x | x in t && x != base :: Under(u, true, base, x) && u[x].parent.value in t
  }

  /** An event tells the truth about ids and parents; its kind, times and order are arbitrary. */
  ghost predicate TrueEvent(u: Forest, e: Event) {
    e.directory.id in u && e.directory.parent == u[e.directory.id].parent
  }

  /** The page lists descendants of the base, parents first, and every answer is about the id asked for. */
  ghost predicate TrueAnswers(u: Forest, base: DirectoryID, a: ClientAnswers)
    requires WellFormed(u)
  {
    && (a.base.Some? ==> a.base.value.id == base)
    && (a.page.Some? ==>
          && ParentsFirst(u, {base}, a.page.value)
          && AnswersPage(u, base, a.page.value, PageAnswers(a)))
  }

  ghost predicate AnswersPage(u: Forest, base: DirectoryID, page: seq<DirectoryID>, answers: seq<Option<Directory>>)
    requires WellFormed(u)
  {
    && |answers| == |page|
    && forall i | 0 <= i < |page| ::
       Under(u, true, base, page[i]) && (answers[i].Some? ==> answers[i].value.id == page[i])
  }

  ghost predicate TrueInput(u: Forest, base: DirectoryID, input: Input)
    requires WellFormed(u)
  {
    match input
    case Tick(answers) => TrueAnswers(u, base, answers)
    case Incoming(event) => TrueEvent(u, event)
    case _ => true
  }

  lemma PersistShaped(u: Forest, base: DirectoryID, env: Environment, s: ControllerState, d: Directory)
    requires WellFormed(u) && Shaped(u, base, s.tracked)
    requires d.id == base || d.id in s.tracked || (Under(u, true, base, d.id) && u[d.id].parent.value in s.tracked)
    ensures Shaped(u, base, Persist(env, s, d).0.tracked)
    ensures s.tracked.Keys <= Persist(env, s, d).0.tracked.Keys
    ensures Persist(env, s, d).1 ==> d.id in Persist(env, s, d).0.tracked
  {
  }

  lemma EventShaped(u: Forest, base: DirectoryID, env: Environment, s: ControllerState, e: Event)
    requires WellFormed(u) && Shaped(u, base, s.tracked) && TrueEvent(u, e)
    ensures Shaped(u, base, ProcessEvent(env, s, e).0.tracked)
  {
    var d := e.directory;
    if Relevant(s.tracked, e) {
      if d.id !in s.tracked {
        assert ParentIsOlder(u, d.id);
      }
      PersistShaped(u, base, env, s, d);
    }
  }

  lemma {:induction false} PersistEachShaped(u: Forest, base: DirectoryID, env: Environment, s: ControllerState,
                                             roots: set<DirectoryID>, page: seq<DirectoryID>,
                                             answers: seq<Option<Directory>>)
    requires WellFormed(u) && Shaped(u, base, s.tracked) && roots <= s.tracked.Keys
    requires ParentsFirst(u, roots, page) && AnswersPage(u, base, page, answers)
    ensures Shaped(u, base, PersistEach(env, s, answers).0.tracked)
    decreases |answers|
  {
    if answers != [] && answers[0].Some? {
      ParentsFirstTail(u, roots, page);
      PersistShaped(u, base, env, s, answers[0].value);
      var r := PersistIfStale(env, s, answers[0]);
      if r.1 {
        assert page[0] in r.0.tracked.Keys;
        PersistEachShaped(u, base, env, r.0, roots + {page[0]}, page[1..], answers[1..]);
      }
    }
  }

  lemma InitializeShaped(u: Forest, base: DirectoryID, env: Environment, s: ControllerState, a: ClientAnswers)
    requires WellFormed(u) && Shaped(u, base, s.tracked) && TrueAnswers(u, base, a)
    ensures Shaped(u, base, Initialize(env, s, a).0.tracked)
  {
    if a.base.Some? {
      PersistShaped(u, base, env, s, a.base.value);
      var r := PersistIfStale(env, s, a.base);
      if r.1 && a.page.Some? {
        PersistEachShaped(u, base, env, r.0, {base}, a.page.value, PageAnswers(a));
      }
    }
  }

  lemma {:induction false} ProcessAllShaped(u: Forest, base: DirectoryID, env: Environment, s: ControllerState,
                                            inputs: seq<Input>)
    requires WellFormed(u) && Shaped(u, base, s.tracked)
    requires forall i | 0 <= i < |inputs| :: TrueInput(u, base, inputs[i])
    ensures Shaped(u, base, ProcessAll(env, s, inputs).0.tracked)
    decreases |inputs|
  {
    if inputs != [] {
      assert TrueInput(u, base, inputs[0]);
      match inputs[0] {
        case Tick(answers) => InitializeShaped(u, base, env, s, answers);
        case Incoming(event) => EventShaped(u, base, env, s, event);
        case _ =>
      }
      ProcessAllShaped(u, base, env, ProcessInput(env, s, inputs[0]).0, inputs[1..]);
    }
  }

  /** From an empty table, whatever true events and truncated pages the controller meets, the tracked set is shaped. */
  lemma TrackedSetShape(u: Forest, base: DirectoryID, env: Environment, startup: Option<ClientAnswers>,
                        inputs: seq<Input>)
    requires WellFormed(u)
    requires startup.Some? ==> TrueAnswers(u, base, startup.value)
    requires forall i | 0 <= i < |inputs| :: TrueInput(u, base, inputs[i])
    ensures Shaped(u, base, RunController(env, ControllerState(map[], []), startup, inputs).0.tracked)
  {
    var s := ControllerState(map[], []);
    if startup.Some? {
      InitializeShaped(u, base, env, s, startup.value);
      ProcessAllShaped(u, base, env, Initialize(env, s, startup.value).0, inputs);
    } else {
      ProcessAllShaped(u, base, env, s, inputs);
    }
  }

  /**
   The truth does not age: a row of an earlier store, or the first page of the base's children there,
   is still true of any later store, since parents never change.
   */
  lemma EarlierRowIsTrue(f: Forest, u: Forest, e: Event)
    requires Extends(f, u) && e.directory.id in f && e.directory.parent == f[e.directory.id].parent
    ensures TrueEvent(u, e)
  {
  }

  lemma EarlierPageIsTrue(f: Forest, u: Forest, base: DirectoryID, o: Options)
    requires WellFormed(f) && WellFormed(u) && Extends(f, u) && Visible(f, o.withDeleted, base) && o.GetPage() == 1
    ensures
      var page := PageOf(LevelList(f, o.withDeleted, base), o);
      ParentsFirst(u, {base}, page) && forall i | 0 <= i < |page| :: Under(u, true, base, page[i])
  {
    var page := PageOf(LevelList(f, o.withDeleted, base), o);
    DriverAgreement.FirstPageParentsFirst(f, base, o);
    DriverAgreement.ChildrenAgree(f, o.withDeleted, base);
    PageOfMeaning(LevelList(f, o.withDeleted, base), o);
    forall i | 0 <= i < |page|
      ensures ParentBefore(u, {base}, page[i], page[..i]) && Under(u, true, base, page[i])
    {
      assert ParentBefore(f, {base}, page[i], page[..i]);
      assert page[i] in Elements(LevelList(f, o.withDeleted, base));
      if !o.withDeleted {
        UnderWithDeleted(f, base, page[i]);
      }
      ExtendsKeepsUnder(f, u, base, page[i]);
    }
  }
}
