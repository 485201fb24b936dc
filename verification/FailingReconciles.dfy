/**
 Failing reconcile calls: a run of the controller is the run in which they all succeed, cut off at the first one that
 fails.
 */
module FailingReconciles {
  import opened Wrappers
  import opened Directories
  import opened Tracking

  /** The same clock, and a reconciler that never fails. */
  function Obliging(env: Environment): Environment {
    env.(reconciles := (k: nat) => true)
  }

  ghost predicate Succeeds(env: Environment, from: nat, to: nat) {
    forall k: nat | from <= k < to :: env.reconciles(k)
  }

  /**
   `actual` gets through exactly if `ideal` does and each of its calls succeeds, and then they end alike. Otherwise it
   has made the first of those calls, up to the one that failed.
   */
  ghost predicate CutsOff(env: Environment, s: ControllerState, actual: StepResult, ideal: StepResult) {
    && s.calls <= actual.0.calls <= ideal.0.calls
    && (forall k: nat | |s.calls| <= k && k + 1 < |actual.0.calls| :: env.reconciles(k))
    && (Succeeds(env, |s.calls|, |ideal.0.calls|) ==> actual == ideal)
    && (actual.1 <==> ideal.1 && Succeeds(env, |s.calls|, |ideal.0.calls|))
    && (actual.1 ==> actual == ideal)
  }

  function Then(first: StepResult, second: StepResult): StepResult {
    if first.1 then second else first
  }

  lemma CutsOffThen(env: Environment, s: ControllerState, actual: StepResult, ideal: StepResult, next: StepResult,
                    idealNext: StepResult)
    requires CutsOff(env, s, actual, ideal) && CutsOff(env, ideal.0, next, idealNext)
    ensures CutsOff(env, s, Then(actual, next), Then(ideal, idealNext))
  {
  }

  lemma PersistCutsOff(env: Environment, s: ControllerState, d: Directory)
    ensures CutsOff(env, s, Persist(env, s, d), Persist(Obliging(env), s, d))
  {
  }

  lemma {:induction false} PersistEachCutsOff(env: Environment, s: ControllerState, answers: seq<Option<Directory>>)
    ensures CutsOff(env, s, PersistEach(env, s, answers), PersistEach(Obliging(env), s, answers))
    decreases |answers|
  {
    if answers != [] {
      var actual, ideal := PersistIfStale(env, s, answers[0]), PersistIfStale(Obliging(env), s, answers[0]);
      PersistEachCutsOff(env, ideal.0, answers[1..]);
      CutsOffThen(env, s, actual, ideal,
                  PersistEach(env, ideal.0, answers[1..]), PersistEach(Obliging(env), ideal.0, answers[1..]));
    }
  }

  lemma InitializeCutsOff(env: Environment, s: ControllerState, a: ClientAnswers)
    ensures CutsOff(env, s, Initialize(env, s, a), Initialize(Obliging(env), s, a))
  {
    var actual, ideal := PersistIfStale(env, s, a.base), PersistIfStale(Obliging(env), s, a.base);
    if a.page.Some? {
      PersistEachCutsOff(env, ideal.0, PageAnswers(a));
      CutsOffThen(env, s, actual, ideal,
                  PersistEach(env, ideal.0, PageAnswers(a)), PersistEach(Obliging(env), ideal.0, PageAnswers(a)));
    } else {
      CutsOffThen(env, s, actual, ideal, (ideal.0, false), (ideal.0, false));
    }
  }

  lemma ProcessInputCutsOff(env: Environment, s: ControllerState, input: Input)
    ensures CutsOff(env, s, ProcessInput(env, s, input), ProcessInput(Obliging(env), s, input))
  {
    match input
    case Tick(answers) => InitializeCutsOff(env, s, answers);
    case Incoming(event) => PersistCutsOff(env, s, event.directory);
    case _ =>
  }

  /**
   For all inputs: the loop gets through exactly if it would with a reconciler that never fails, and none of those
   calls fails.
   */
  lemma {:induction false} ProcessAllCutsOff(env: Environment, s: ControllerState, inputs: seq<Input>)
    ensures CutsOff(env, s, ProcessAll(env, s, inputs), ProcessAll(Obliging(env), s, inputs))
    decreases |inputs|
  {
    if inputs != [] {
      var actual, ideal := ProcessInput(env, s, inputs[0]), ProcessInput(Obliging(env), s, inputs[0]);
      ProcessInputCutsOff(env, s, inputs[0]);
      ProcessAllCutsOff(env, ideal.0, inputs[1..]);
      CutsOffThen(env, s, actual, ideal,
                  ProcessAll(env, ideal.0, inputs[1..]), ProcessAll(Obliging(env), ideal.0, inputs[1..]));
    }
  }

  /** So does `Run`, the reconcile at its start included. */
  lemma RunCutsOff(env: Environment, s: ControllerState, startup: Option<ClientAnswers>, inputs: seq<Input>)
    ensures CutsOff(env, s, RunController(env, s, startup, inputs), RunController(Obliging(env), s, startup, inputs))
  {
    if startup.None? {
      ProcessAllCutsOff(env, s, inputs);
    } else {
      var actual, ideal := Initialize(env, s, startup.value), Initialize(Obliging(env), s, startup.value);
      InitializeCutsOff(env, s, startup.value);
      ProcessAllCutsOff(env, ideal.0, inputs);
      CutsOffThen(env, s, actual, ideal, ProcessAll(env, ideal.0, inputs), ProcessAll(Obliging(env), ideal.0, inputs));
    }
  }
}
