/** The application's view of a subtree: the `tracked_directories` table and the calls made to its reconciler. */
module Tracking {
  import opened Wrappers
  import opened Directories
  import opened ServerRuns

  /** Tracked ids with their `deleted_at` column. */
  type Table = map<DirectoryID, Option<Time>>

  datatype CallKind = CreateCall | DeleteCall

  /** One call of `Reconcile`. */
  datatype Call = Call(kind: CallKind, directory: Directory)

  datatype ControllerState = ControllerState(tracked: Table, calls: seq<Call>)

  /**
   What the controller cannot decide: `NOW()` at the table write that precedes the k-th call of the
   reconciler, and whether that call succeeds.
   */
  datatype Environment = Environment(now: nat -> Time, reconciles: nat -> bool)

  /** A step's new state, and whether it returned no error. */
  type StepResult = (ControllerState, bool)

  /**
   The client's answers to one full reconcile; `None` is an error. `fetched` answers for the ids of `page` in turn.
   */
  datatype ClientAnswers = ClientAnswers(base: Option<Directory>, page: Option<seq<DirectoryID>>,
                                         fetched: seq<Option<Directory>>)

  datatype Input =
    | Tick(answers: ClientAnswers)
    | Incoming(event: Event)
    | WatchFailed
    | Cancelled

  function CompareDeletedAt(observed: Option<Time>, expected: Option<Time>): bool {
    if expected.None? then observed.None?
    else if observed.Some? && expected.value == 0 then false
    else if observed.None? && expected.value != 0 then false
    else if observed.Some? && expected.value != 0 && observed.value != expected.value then false
    else true
  }

  /** A zero expected time counts as no time; otherwise both sides must agree. */
  lemma CompareMeaning(observed: Option<Time>, expected: Option<Time>)
    ensures CompareDeletedAt(observed, expected) <==> observed == if expected == Some(0) then None else expected
  {
  }

  function Persist(env: Environment, s: ControllerState, d: Directory): StepResult {
    if d.IsDeleted() then
      if d.id in s.tracked && s.tracked[d.id].None?
      then (ControllerState(s.tracked[d.id := Some(env.now(|s.calls|))], s.calls + [Call(DeleteCall, d)]),
            env.reconciles(|s.calls|))
      else (s, false)
    else
      if d.id !in s.tracked
      then (ControllerState(s.tracked[d.id := None], s.calls + [Call(CreateCall, d)]), env.reconciles(|s.calls|))
      else (s, false)
  }

  /** Tracked directories are relevant; so are created children of tracked ones. */
  predicate Relevant(t: Table, e: Event) {
    || e.directory.id in t
    || (e.kind == CreateEvent && e.directory.parent.Some? && e.directory.parent.value in t)
  }

  function ProcessEvent(env: Environment, s: ControllerState, e: Event): StepResult {
    if Relevant(s.tracked, e) then Persist(env, s, e.directory) else (s, true)
  }

  predicate UpToDate(t: Table, d: Directory) {
    d.id in t && CompareDeletedAt(t[d.id], d.deletedAt)
  }

  function PersistIfStale(env: Environment, s: ControllerState, answer: Option<Directory>): StepResult {
    if answer.None? then (s, false)
    else if UpToDate(s.tracked, answer.value) then (s, true)
    else Persist(env, s, answer.value)
  }

  function PersistEach(env: Environment, s: ControllerState, answers: seq<Option<Directory>>): StepResult
    decreases |answers|
  {
    if answers == [] then (s, true)
    else
      var r := PersistIfStale(env, s, answers[0]);
      if !r.1 then r else PersistEach(env, r.0, answers[1..])
  }

  function AnswerAt(fetched: seq<Option<Directory>>, i: nat): Option<Directory> {
    if i < |fetched| then fetched[i] else None
  }

  /** The answers for the ids of the page, in order. */
  function PageAnswers(a: ClientAnswers): seq<Option<Directory>>
    requires a.page.Some?
  {
    seq(|a.page.value|, i requires 0 <= i < |a.page.value| => AnswerAt(a.fetched, i))
  }

  /** `InitializeDirectories` of a controller that has a client. */
  function Initialize(env: Environment, s: ControllerState, a: ClientAnswers): StepResult {
    var r := PersistIfStale(env, s, a.base);
    if !r.1 then r
    else if a.page.None? then (r.0, false)
    else PersistEach(env, r.0, PageAnswers(a))
  }

  function ProcessInput(env: Environment, s: ControllerState, input: Input): StepResult {
    match input
    case Tick(answers) => Initialize(env, s, answers)
    case Incoming(event) => ProcessEvent(env, s, event)
    case WatchFailed => (s, false)
    case Cancelled => (s, false)
  }

  /** The select loop: inputs are handled in turn until one of them returns an error. */
  function ProcessAll(env: Environment, s: ControllerState, inputs: seq<Input>): StepResult
    decreases |inputs|
  {
    if inputs == [] then (s, true)
    else
      var r := ProcessInput(env, s, inputs[0]);
      if !r.1 then r else ProcessAll(env, r.0, inputs[1..])
  }

  /** `Run`: a full reconcile first, if there is a client, and then the loop. */
  function RunController(env: Environment, s: ControllerState, startup: Option<ClientAnswers>,
                         inputs: seq<Input>): StepResult {
    var r := if startup.Some? then Initialize(env, s, startup.value) else (s, true);
    if !r.1 then r else ProcessAll(env, r.0, inputs)
  }
}
