/** The first error ends the controller: nothing that comes after it is looked at. */
module FirstError {
  import opened Wrappers
  import opened Directories
  import opened Tracking

  lemma {:induction false} ProcessAllConcat(env: Environment, s: ControllerState, a: seq<Input>, b: seq<Input>)
    ensures
      var r := ProcessAll(env, s, a);
      ProcessAll(env, s, a + b) == if r.1 then ProcessAll(env, r.0, b) else r
    decreases |a|
  {
    if a == [] {
      assert a + b == b;
    } else {
      assert (a + b)[0] == a[0] && (a + b)[1..] == a[1..] + b;
      ProcessAllConcat(env, ProcessInput(env, s, a[0]).0, a[1..], b);
    }
  }

  /** A run over more inputs goes on where the shorter one ended, or ends with it if that was an error. */
  lemma RunConcat(env: Environment, s: ControllerState, startup: Option<ClientAnswers>, a: seq<Input>, b: seq<Input>)
    ensures
      var r := RunController(env, s, startup, a);
      RunController(env, s, startup, a + b) == if r.1 then ProcessAll(env, r.0, b) else r
  {
    ProcessAllConcat(env, if startup.Some? then Initialize(env, s, startup.value).0 else s, a, b);
  }

  /** A failed or cancelled watch ends the run with an error, in the state after the inputs before it. */
  lemma WatchEndsRun(env: Environment, s: ControllerState, startup: Option<ClientAnswers>, inputs: seq<Input>, i: nat)
    requires i < |inputs| && (inputs[i].WatchFailed? || inputs[i].Cancelled?)
    ensures RunController(env, s, startup, inputs) == (RunController(env, s, startup, inputs[..i]).0, false)
  {
    assert inputs == inputs[..i] + inputs[i..];
    RunConcat(env, s, startup, inputs[..i], inputs[i..]);
  }

  lemma {:induction false} PersistEachConcat(env: Environment, s: ControllerState, a: seq<Option<Directory>>,
                                             b: seq<Option<Directory>>)
    ensures
      var r := PersistEach(env, s, a);
      PersistEach(env, s, a + b) == if r.1 then PersistEach(env, r.0, b) else r
    decreases |a|
  {
    if a == [] {
      assert a + b == b;
    } else {
      assert (a + b)[0] == a[0] && (a + b)[1..] == a[1..] + b;
      PersistEachConcat(env, PersistIfStale(env, s, a[0]).0, a[1..], b);
    }
  }

  /**
   A full reconcile over a longer page goes on where the one over its first `k` ids ended, or ends with it if that was
   an error; a base that cannot be fetched is an error before any page is asked for.
   */
  lemma ReconcileStopsAtError(env: Environment, s: ControllerState, a: ClientAnswers, k: nat)
    requires a.page.Some? && k <= |a.page.value|
    ensures
      var r := Initialize(env, s, a.(page := Some(a.page.value[..k])));
      Initialize(env, s, a) == if r.1 then PersistEach(env, r.0, PageAnswers(a)[k..]) else r
    ensures a.base.None? ==> Initialize(env, s, a) == (s, false)
  {
    var shorter := a.(page := Some(a.page.value[..k]));
    assert PageAnswers(a) == PageAnswers(shorter) + PageAnswers(a)[k..];
    PersistEachConcat(env, PersistIfStale(env, s, a.base).0, PageAnswers(shorter), PageAnswers(a)[k..]);
  }
}
