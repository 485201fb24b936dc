/** What the reconciler sees, and when a full reconcile changes nothing. */
module ReconcileTrace {
  import opened Wrappers
  import opened Directories
  import opened Tracking

  /** The kinds of the calls about `x`, in order. */
  function CallsAbout(calls: seq<Call>, x: DirectoryID): seq<CallKind> {
    if calls == [] then []
    else
      var last := calls[|calls| - 1];
      CallsAbout(calls[..|calls| - 1], x) + (if last.directory.id == x then [last.kind] else [])
  }

  /** The calls that a table entry accounts for. */
  function CallsFor(t: Table, x: DirectoryID): seq<CallKind> {
    if x !in t then [] else if t[x].None? then [CreateCall] else [CreateCall, DeleteCall]
  }

  /** The table and the calls tell the same story about every id, and each call matches its directory. */
  ghost predicate Traced(s: ControllerState) {
    && (forall x: DirectoryID :: CallsAbout(s.calls, x) == CallsFor(s.tracked, x))
    && (forall k | 0 <= k < |s.calls| :: s.calls[k].kind.DeleteCall? <==> s.calls[k].directory.IsDeleted())
  }

  lemma PersistTraced(env: Environment, s: ControllerState, d: Directory)
    requires Traced(s)
    ensures Traced(Persist(env, s, d).0)
  {
    var t := Persist(env, s, d).0;
    if t != s {
      forall x: DirectoryID
        ensures CallsAbout(t.calls, x) == CallsFor(t.tracked, x)
      {
        assert CallsAbout(s.calls, x) == CallsFor(s.tracked, x);
      }
    }
  }

  lemma {:induction false} PersistEachTraced(env: Environment, s: ControllerState, answers: seq<Option<Directory>>)
    requires Traced(s)
    ensures Traced(PersistEach(env, s, answers).0)
    decreases |answers|
  {
    if answers != [] {
      if answers[0].Some? {
        PersistTraced(env, s, answers[0].value);
      }
      PersistEachTraced(env, PersistIfStale(env, s, answers[0]).0, answers[1..]);
    }
  }

  lemma InitializeTraced(env: Environment, s: ControllerState, a: ClientAnswers)
    requires Traced(s)
    ensures Traced(Initialize(env, s, a).0)
  {
    if a.base.Some? {
      PersistTraced(env, s, a.base.value);
    }
    if a.page.Some? {
      PersistEachTraced(env, PersistIfStale(env, s, a.base).0, PageAnswers(a));
    }
  }

  lemma {:induction false} ProcessAllTraced(env: Environment, s: ControllerState, inputs: seq<Input>)
    requires Traced(s)
    ensures Traced(ProcessAll(env, s, inputs).0)
    decreases |inputs|
  {
    if inputs != [] {
      match inputs[0] {
        case Tick(answers) => InitializeTraced(env, s, answers);
        case Incoming(event) => PersistTraced(env, s, event.directory);
        case WatchFailed =>
        case Cancelled =>
      }
      ProcessAllTraced(env, ProcessInput(env, s, inputs[0]).0, inputs[1..]);
    }
  }

  /**
   Whatever events arrive, lost, repeated or reordered, and whatever the client answers: one run of the
   controller keeps the table and the reconciler's calls in step. Runs may follow one another on the same table.
   */
  lemma RunTraced(env: Environment, s: ControllerState, startup: Option<ClientAnswers>, inputs: seq<Input>)
    requires Traced(s)
    ensures Traced(RunController(env, s, startup, inputs).0)
  {
    if startup.Some? {
      InitializeTraced(env, s, startup.value);
    }
    ProcessAllTraced(env, if startup.Some? then Initialize(env, s, startup.value).0 else s, inputs);
  }

  ghost predicate AnswersWith(a: ClientAnswers, d: Directory) {
    a.base == Some(d) || (a.page.Some? && Some(d) in PageAnswers(a))
  }

  /** What an input tells the controller of. */
  ghost predicate TellsOf(input: Input, d: Directory) {
    (input.Tick? && AnswersWith(input.answers, d)) || (input.Incoming? && input.event.directory == d)
  }

  /** The calls made since `s` carry, unchanged, directories among `heard`, each with the kind of call it asks for. */
  ghost predicate Carries(s: ControllerState, t: ControllerState, heard: iset<Directory>) {
    && s.calls <= t.calls
    && forall k | |s.calls| <= k < |t.calls| ::
         && t.calls[k].directory in heard
         && t.calls[k].kind == if t.calls[k].directory.IsDeleted() then DeleteCall else CreateCall
  }

  lemma {:induction false} PersistEachCarries(env: Environment, s: ControllerState, answers: seq<Option<Directory>>,
                                              heard: iset<Directory>)
    requires forall i | 0 <= i < |answers| && answers[i].Some? :: answers[i].value in heard
    ensures Carries(s, PersistEach(env, s, answers).0, heard)
    decreases |answers|
  {
    if answers != [] {
      assert forall i | 0 <= i < |answers[1..]| :: answers[1..][i] == answers[i + 1];
      PersistEachCarries(env, PersistIfStale(env, s, answers[0]).0, answers[1..], heard);
    }
  }

  lemma InitializeCarries(env: Environment, s: ControllerState, a: ClientAnswers, heard: iset<Directory>)
    requires forall d | AnswersWith(a, d) :: d in heard
    ensures Carries(s, Initialize(env, s, a).0, heard)
  {
    assert a.base.Some? ==> AnswersWith(a, a.base.value);
    if a.page.Some? {
      forall i | 0 <= i < |PageAnswers(a)| && PageAnswers(a)[i].Some?
        ensures PageAnswers(a)[i].value in heard
      {
        assert AnswersWith(a, PageAnswers(a)[i].value);
      }
      PersistEachCarries(env, PersistIfStale(env, s, a.base).0, PageAnswers(a), heard);
    }
  }

  lemma {:induction false} ProcessAllCarries(env: Environment, s: ControllerState, inputs: seq<Input>,
                                             heard: iset<Directory>)
    requires forall i, d | 0 <= i < |inputs| && TellsOf(inputs[i], d) :: d in heard
    ensures Carries(s, ProcessAll(env, s, inputs).0, heard)
    decreases |inputs|
  {
    if inputs != [] {
      assert forall d | TellsOf(inputs[0], d) :: d in heard;
      if inputs[0].Tick? {
        forall d | AnswersWith(inputs[0].answers, d)
          ensures d in heard
        {
          assert TellsOf(inputs[0], d);
        }
        InitializeCarries(env, s, inputs[0].answers, heard);
      } else if inputs[0].Incoming? {
        assert TellsOf(inputs[0], inputs[0].event.directory);
      }
      assert forall i | 0 <= i < |inputs[1..]| :: inputs[1..][i] == inputs[i + 1];
      ProcessAllCarries(env, ProcessInput(env, s, inputs[0]).0, inputs[1..], heard);
    }
  }

  /**
   Every call of a run hands the reconciler a directory exactly as an event or a client's answer has told it, and asks
   it to delete exactly the deleted ones.
   */
  lemma CallsCarryWhatWasHeard(env: Environment, s: ControllerState, startup: Option<ClientAnswers>,
                               inputs: seq<Input>)
    ensures
      var heard := iset d: Directory | (startup.Some? && AnswersWith(startup.value, d)) ||
                                       exists i :: 0 <= i < |inputs| && TellsOf(inputs[i], d);
      Carries(s, RunController(env, s, startup, inputs).0, heard)
  {
    var heard := iset d: Directory | (startup.Some? && AnswersWith(startup.value, d)) ||
                                     exists i :: 0 <= i < |inputs| && TellsOf(inputs[i], d);
    if startup.Some? {
      InitializeCarries(env, s, startup.value, heard);
    }
    ProcessAllCarries(env, if startup.Some? then Initialize(env, s, startup.value).0 else s, inputs, heard);
  }

  /** From an empty table the calls about one id are nothing, a create, or a create and then a delete. */
  lemma ReconcileCallsPerDirectory(env: Environment, startup: Option<ClientAnswers>, inputs: seq<Input>, x: DirectoryID)
    ensures
      var s := RunController(env, ControllerState(map[], []), startup, inputs).0;
      && CallsAbout(s.calls, x) <= [CreateCall, DeleteCall]
      && (x in s.tracked <==> CallsAbout(s.calls, x) != [])
      && (x in s.tracked && s.tracked[x].Some? <==> CallsAbout(s.calls, x) == [CreateCall, DeleteCall])
  {
    var s := RunController(env, ControllerState(map[], []), startup, inputs).0;
    RunTraced(env, ControllerState(map[], []), startup, inputs);
    assert CallsAbout(s.calls, x) == CallsFor(s.tracked, x);
  }

  /** Every answer describes a directory that is not deleted. */
  ghost predicate AllLive(answers: seq<Option<Directory>>) {
    forall i | 0 <= i < |answers| && answers[i].Some? :: !answers[i].value.IsDeleted()
  }

  /** Ids tracked as live. */
  ghost predicate KeepsLive(t: Table, u: Table) {
    forall x | x in t && t[x].None? :: x in u && u[x].None?
  }

  /** A live answer that is processed without error is tracked as live from then on. */
  lemma {:induction false} PersistEachTracks(env: Environment, s: ControllerState, answers: seq<Option<Directory>>)
    requires AllLive(answers) && PersistEach(env, s, answers).1
    ensures KeepsLive(s.tracked, PersistEach(env, s, answers).0.tracked)
    ensures forall i | 0 <= i < |answers| ::
              && answers[i].Some?
              && answers[i].value.id in PersistEach(env, s, answers).0.tracked
              && PersistEach(env, s, answers).0.tracked[answers[i].value.id].None?
    decreases |answers|
  {
    if answers != [] {
      var r := PersistIfStale(env, s, answers[0]);
      var d := answers[0].value;
      CompareMeaning(if d.id in s.tracked then s.tracked[d.id] else None, d.deletedAt);
      forall i | 0 <= i < |answers[1..]| && answers[1..][i].Some?
        ensures !answers[1..][i].value.IsDeleted()
      {
        assert answers[1..][i] == answers[i + 1];
      }
      PersistEachTracks(env, r.0, answers[1..]);
      assert forall i | 1 <= i < |answers| :: answers[i] == answers[1..][i - 1];
    }
  }

  /** Answers that are all up to date change nothing and raise no error. */
  lemma {:induction false} PersistEachIdle(env: Environment, s: ControllerState, answers: seq<Option<Directory>>)
    requires forall i | 0 <= i < |answers| :: answers[i].Some? && UpToDate(s.tracked, answers[i].value)
    ensures PersistEach(env, s, answers) == (s, true)
    decreases |answers|
  {
    if answers != [] {
      assert forall i | 0 <= i < |answers[1..]| :: answers[1..][i] == answers[i + 1];
      PersistEachIdle(env, s, answers[1..]);
    }
  }

  lemma LiveIsUpToDate(t: Table, d: Directory)
    requires !d.IsDeleted() && d.id in t && t[d.id].None?
    ensures UpToDate(t, d)
  {
    CompareMeaning(t[d.id], d.deletedAt);
  }

  /** After a successful full reconcile, the same live answers again write nothing and call nothing. */
  lemma InitializeIsFixpoint(env: Environment, s: ControllerState, a: ClientAnswers)
    requires Initialize(env, s, a).1
    requires a.page.Some? && AllLive([a.base]) && AllLive(PageAnswers(a))
    ensures Initialize(env, Initialize(env, s, a).0, a) == (Initialize(env, s, a).0, true)
  {
    var answers := PageAnswers(a);
    var t := PersistEach(env, s, [a.base]).0;
    assert [a.base][0] == a.base && [a.base][1..] == [];
    assert PersistEach(env, s, [a.base]) == PersistIfStale(env, s, a.base) by {
      assert PersistEach(env, PersistIfStale(env, s, a.base).0, []) == (PersistIfStale(env, s, a.base).0, true);
    }
    PersistEachTracks(env, s, [a.base]);
    PersistEachTracks(env, t, answers);
    var u := PersistEach(env, t, answers).0;
    forall i | 0 <= i < |answers|
      ensures answers[i].Some? && UpToDate(u.tracked, answers[i].value)
    {
      LiveIsUpToDate(u.tracked, answers[i].value);
    }
    LiveIsUpToDate(u.tracked, a.base.value);
    PersistEachIdle(env, u, answers);
  }

  /**
   A deleted answer, once persisted, is stamped with the controller's own clock; asked again the
   controller stays idle exactly when that stamp is the answer's deletion time, and fails otherwise.
   */
  lemma DeletedAnswerAgain(env: Environment, s: ControllerState, d: Directory)
    requires d.IsDeleted() && !UpToDate(s.tracked, d) && PersistIfStale(env, s, Some(d)).1
    ensures
      var t := PersistIfStale(env, s, Some(d)).0;
      PersistIfStale(env, t, Some(d)) == (t, env.now(|s.calls|) == d.deletedAt.value)
  {
    CompareMeaning(Some(env.now(|s.calls|)), d.deletedAt);
  }
}
