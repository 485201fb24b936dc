/** The tracked set of a controller that watches a running server. */
module TrackedRuns {
  import opened Wrappers
  import opened Directories
  import opened Storage
  import opened ServerRuns
  import opened Tracking
  import opened CrdbDriver
  import opened TrackedShape

  /** Some store of the run held `row` as the row of `x`. */
  ghost predicate ServedRow(labels: seq<Label>, x: DirectoryID, row: Directory)
    requires AllEnabled(INITIAL.store, labels)
  {
    exists k: nat | k <= |labels| :: x in StoreAt(labels, k) && StoreAt(labels, k)[x] == row
  }

  /** Some store of the run listed `page` as the first page below `base`. */
  ghost predicate ServedPage(labels: seq<Label>, base: DirectoryID, page: seq<DirectoryID>)
    requires AllEnabled(INITIAL.store, labels)
  {
    exists k: nat | k <= |labels| ::
      Live(StoreAt(labels, k), base) && page == PageOf(LevelList(StoreAt(labels, k), false, base), Built([]))
  }

  /** The answers come from stores of the run, perhaps each from a different one. */
  ghost predicate ServedAnswers(labels: seq<Label>, base: DirectoryID, a: ClientAnswers)
    requires AllEnabled(INITIAL.store, labels)
  {
    && (a.base.Some? ==> ServedRow(labels, base, a.base.value))
    && (a.page.Some? ==>
          && ServedPage(labels, base, a.page.value)
          && forall i | 0 <= i < |a.page.value| ::
               PageAnswers(a)[i].Some? ==> ServedRow(labels, a.page.value[i], PageAnswers(a)[i].value))
  }

  /** Events come from the log of the run, in any order and number. */
  ghost predicate ServedInput(labels: seq<Label>, base: DirectoryID, input: Input)
    requires AllEnabled(INITIAL.store, labels)
  {
    match input
    case Tick(answers) => ServedAnswers(labels, base, answers)
    case Incoming(event) => event in Run(INITIAL, labels).log
    case _ => true
  }

  /** Whatever was once published stays true of ids and parents. */
  lemma {:induction false} LoggedEventIsTrue(f: Forest, log: seq<Event>, k: nat)
    requires WellFormed(f) && LogFits(f, log) && k < |log|
    ensures WellFormed(Fold(f, log)) && TrueEvent(Fold(f, log), log[k])
    decreases |log|
  {
    var n := |log| - 1;
    var before := Fold(f, log[..n]);
    LogFitsWellFormed(f, log);
    FitsKeeps(before, log[n]);
    if k < n {
      LoggedEventIsTrue(f, log[..n], k);
      EarlierRowIsTrue(before, Fold(f, log), log[k]);
    }
  }

  lemma ServedRowIsTrue(labels: seq<Label>, x: DirectoryID, row: Directory)
    requires AllEnabled(INITIAL.store, labels) && ServedRow(labels, x, row)
    ensures row.id == x
  {
    var k: nat :| k <= |labels| && x in StoreAt(labels, k) && StoreAt(labels, k)[x] == row;
    StoreAtKeeps(labels, k);
  }

  lemma ServedAnswersAreTrue(labels: seq<Label>, base: DirectoryID, a: ClientAnswers)
    requires AllEnabled(INITIAL.store, labels) && ServedAnswers(labels, base, a)
    ensures Sound(Run(INITIAL, labels).store) && TrueAnswers(Run(INITIAL, labels).store, base, a)
  {
    StoreAtKeeps(labels, 0);
    if a.base.Some? {
      ServedRowIsTrue(labels, base, a.base.value);
    }
    if a.page.Some? {
      var k: nat :| k <= |labels| && Live(StoreAt(labels, k), base) &&
                    a.page.value == PageOf(LevelList(StoreAt(labels, k), false, base), Built([]));
      StoreAtKeeps(labels, k);
      EarlierPageIsTrue(StoreAt(labels, k), Run(INITIAL, labels).store, base, Built([]));
      forall i | 0 <= i < |a.page.value| && PageAnswers(a)[i].Some?
        ensures PageAnswers(a)[i].value.id == a.page.value[i]
      {
        ServedRowIsTrue(labels, a.page.value[i], PageAnswers(a)[i].value);
      }
    }
  }

  lemma ServedInputIsTrue(labels: seq<Label>, base: DirectoryID, input: Input)
    requires AllEnabled(INITIAL.store, labels) && ServedInput(labels, base, input)
    ensures Sound(Run(INITIAL, labels).store) && TrueInput(Run(INITIAL, labels).store, base, input)
  {
    StoreAtKeeps(labels, 0);
    match input
    case Tick(answers) => ServedAnswersAreTrue(labels, base, answers);
    case Incoming(event) =>
      var log := RunKeeps(INITIAL, labels);
      var k :| 0 <= k < |log| && log[k] == event;
      LoggedEventIsTrue(INITIAL.store, log, k);
    case _ =>
  }

  /**
   A controller that starts from an empty table, receives published events lost, repeated or reordered, and
   reconciles against whatever the server answered at any times, tracks only the base and its descendants, and
   each of them but the base together with its parent.
   */
  lemma TrackedSetOfRun(labels: seq<Label>, base: DirectoryID, env: Environment,
                        startup: Option<ClientAnswers>, inputs: seq<Input>)
    requires AllEnabled(INITIAL.store, labels)
    requires startup.Some? ==> ServedAnswers(labels, base, startup.value)
    requires forall i | 0 <= i < |inputs| :: ServedInput(labels, base, inputs[i])
    ensures Sound(Run(INITIAL, labels).store)
    ensures Shaped(Run(INITIAL, labels).store, base,
                   RunController(env, ControllerState(map[], []), startup, inputs).0.tracked)
  {
    StoreAtKeeps(labels, 0);
    if startup.Some? {
      ServedAnswersAreTrue(labels, base, startup.value);
    }
    forall i | 0 <= i < |inputs|
      ensures TrueInput(Run(INITIAL, labels).store, base, inputs[i])
    {
      ServedInputIsTrue(labels, base, inputs[i]);
    }
    TrackedSetShape(Run(INITIAL, labels).store, base, env, startup, inputs);
  }
}
