/**
 A controller that follows a log from whatever it has tracked before, with full reconciles among the events. Each
 request of a reconcile is answered from the store the server then has, while the events consumed so far may describe
 an earlier one.
 */
module Following {
  import opened Wrappers
  import opened Directories
  import opened Ordering
  import opened Storage
  import opened ServerRuns
  import opened Tracking
  import opened FirstError
  import opened CrdbDriver
  import opened ReconcileTrace
  import opened Mirror

  /**
   What the controller meets: an event, or a full reconcile. The first store of `seen` answers for the base, the
   second for the page of its children, and the others for the directories of that page, one each.
   */
  datatype Moment = Consumed(event: Event) | Ticked(seen: seq<Forest>, answers: ClientAnswers)

  function InputOf(m: Moment): Input {
    match m
    case Consumed(event) => Incoming(event)
    case Ticked(_, answers) => Tick(answers)
  }

  function Inputs(moments: seq<Moment>): seq<Input> {
    seq(|moments|, i requires 0 <= i < |moments| => InputOf(moments[i]))
  }

  /** The store that the consumed events describe. */
  function View(f0: Forest, moments: seq<Moment>): Forest {
    if moments == [] then f0 else NextView(View(f0, moments[..|moments| - 1]), moments[|moments| - 1])
  }

  function NextView(view: Forest, m: Moment): Forest {
    if m.Consumed? then view[m.event.directory.id := m.event.directory] else view
  }

  /** The first page below the base, as a client is told. */
  ghost function ListedBelow(f: Forest, base: DirectoryID): seq<DirectoryID> {
    PageOf(LevelList(f, false, base), Built([]))
  }

  /** The client's answer about one directory: deleted ones are not found. */
  function RowAt(f: Forest, x: DirectoryID): Option<Directory> {
    if Live(f, x) then Some(f[x]) else None
  }

  /** There is one store for each request that a reconcile makes if none of them fails. */
  ghost predicate OnePerRequest(seen: seq<Forest>, base: DirectoryID) {
    |seen| >= 2 && (Live(seen[1], base) ==> |seen| == 2 + |ListedBelow(seen[1], base)|)
  }

  ghost predicate RowsFrom(stores: seq<Forest>, ids: seq<DirectoryID>, answers: seq<Option<Directory>>) {
    |stores| == |ids| == |answers| && forall i | 0 <= i < |ids| :: answers[i] == RowAt(stores[i], ids[i])
  }

  /** The client's answers from these stores: the children of a deleted base are not found either. */
  ghost predicate Answered(seen: seq<Forest>, base: DirectoryID, a: ClientAnswers) {
    && OnePerRequest(seen, base)
    && a.base == RowAt(seen[0], base)
    && a.page == (if Live(seen[1], base) then Some(ListedBelow(seen[1], base)) else None)
    && (Live(seen[1], base) ==> RowsFrom(seen[2..], ListedBelow(seen[1], base), a.fetched))
  }

  ghost predicate AllLiveAt(stores: seq<Forest>, ids: seq<DirectoryID>) {
    |stores| == |ids| && forall i | 0 <= i < |ids| :: Live(stores[i], ids[i])
  }

  /** The base is live when it and its children are asked for, and each listed child when it is asked for in turn. */
  ghost predicate FindsAll(seen: seq<Forest>, base: DirectoryID)
    requires OnePerRequest(seen, base)
  {
    Live(seen[0], base) && Live(seen[1], base) && AllLiveAt(seen[2..], ListedBelow(seen[1], base))
  }

  /** An event fits the view it is consumed in; each request of a reconcile sees a store that extends the view. */
  ghost predicate MomentFits(base: DirectoryID, view: Forest, m: Moment)
    requires WellFormed(view)
  {
    && (m.Consumed? ==> Fits(view, m.event))
    && (m.Ticked? ==>
          && Answered(m.seen, base, m.answers)
          && forall i | 0 <= i < |m.seen| :: WellFormed(m.seen[i]) && Extends(view, m.seen[i]))
  }

  ghost predicate MomentsFit(f0: Forest, base: DirectoryID, moments: seq<Moment>)
    decreases |moments|
  {
    moments == [] ||
    var before := moments[..|moments| - 1];
    && MomentsFit(f0, base, before)
    && WellFormed(View(f0, before))
    && MomentFits(base, View(f0, before), moments[|moments| - 1])
  }

  /** What is tracked after one more moment: children created below tracked directories, and what a reconcile lists. */
  ghost function NextKept(base: DirectoryID, kept: set<DirectoryID>, m: Moment): set<DirectoryID> {
    if m.Ticked? then kept + {base} + (if |m.seen| >= 2 then Elements(ListedBelow(m.seen[1], base)) else {})
    else
      var d := m.event.directory;
      if m.event.kind.CreateEvent? && d.parent.Some? && d.parent.value in kept then kept + {d.id} else kept
  }

  ghost function Kept(base: DirectoryID, kept0: set<DirectoryID>, moments: seq<Moment>): set<DirectoryID> {
    if moments == [] then kept0
    else NextKept(base, Kept(base, kept0, moments[..|moments| - 1]), moments[|moments| - 1])
  }

  /**
   An update of a tracked directory, the create event of a directory that is tracked already, or a full reconcile
   one of whose requests finds a directory deleted.
   */
  ghost predicate Disturbs(base: DirectoryID, kept: set<DirectoryID>, m: Moment)
    requires m.Ticked? ==> OnePerRequest(m.seen, base)
  {
    || (m.Consumed? && (m.event.kind.UpdateEvent? || m.event.kind.CreateEvent?) && m.event.directory.id in kept)
    || (m.Ticked? && !FindsAll(m.seen, base))
  }

  ghost predicate Undisturbed(f0: Forest, base: DirectoryID, kept0: set<DirectoryID>, moments: seq<Moment>)
    requires MomentsFit(f0, base, moments)
    decreases |moments|
  {
    moments == [] ||
    var before := moments[..|moments| - 1];
    && Undisturbed(f0, base, kept0, before)
    && !Disturbs(base, Kept(base, kept0, before), moments[|moments| - 1])
  }

  /** Tracked directories carry the deletion marks of `f`; what `f` lacks is tracked as live. */
  ghost predicate Accurate(f: Forest, t: Table) {
    forall x | x in t :: t[x].Some? <==> DeletedIn(f, x)
  }

  /**
   An event is an error exactly if it updates or creates a tracked directory; otherwise the table takes in a child
   created below a tracked directory, and the deletion of a tracked one.
   */
  lemma EventFollowed(f: Forest, base: DirectoryID, env: Environment, s: ControllerState, e: Event)
    requires WellFormed(f) && Accurate(f, s.tracked) && Fits(f, e) && AlwaysReconciles(env)
    ensures ProcessEvent(env, s, e).1 <==> !Disturbs(base, s.tracked.Keys, Consumed(e))
    ensures ProcessEvent(env, s, e).1 ==>
              && ProcessEvent(env, s, e).0.tracked.Keys == NextKept(base, s.tracked.Keys, Consumed(e))
              && Accurate(f[e.directory.id := e.directory], ProcessEvent(env, s, e).0.tracked)
  {
    var d := e.directory;
    match e.kind
    case CreateEvent => assert !d.IsDeleted() && !DeletedIn(f, d.id);
    case UpdateEvent => assert !d.IsDeleted();
    case DeleteEvent => assert d.IsDeleted() && !DeletedIn(f, d.id);
    case DeleteHardEvent =>
  }

  /** `t` with the directories of `s` that it lacks, as live. */
  ghost function WithNew(t: Table, s: set<DirectoryID>): Table {
    map x | x in t.Keys + s :: if x in t then t[x] else None
  }

  /** A directory that is live in a later store is live in the view, if it is there at all. */
  lemma PersistRow(f: Forest, store: Forest, env: Environment, s: ControllerState, x: DirectoryID)
    requires Accurate(f, s.tracked) && WellFormed(store) && Extends(f, store) && AlwaysReconciles(env)
    ensures PersistIfStale(env, s, RowAt(store, x)).1 <==> Live(store, x)
    ensures Live(store, x) ==>
              var r := PersistIfStale(env, s, RowAt(store, x)).0;
              && r.tracked == WithNew(s.tracked, {x}) && Accurate(f, r.tracked)
              && (x in s.tracked ==> r == s)
  {
    if Live(store, x) {
      assert !DeletedIn(f, x);
      if x in s.tracked {
        LiveIsUpToDate(s.tracked, store[x]);
        assert WithNew(s.tracked, {x}) == s.tracked;
      }
    }
  }

  lemma RestIsNewToo(t: Table, ids: seq<DirectoryID>)
    requires ids != []
    ensures WithNew(WithNew(t, {ids[0]}), Elements(ids[1..])) == WithNew(t, Elements(ids))
    ensures Elements(ids) <= t.Keys ==> ids[0] in t && Elements(ids[1..]) <= t.Keys
  {
    assert ids == [ids[0]] + ids[1..];
    ElementsConcat([ids[0]], ids[1..]);
    assert ids[0] in Elements(ids);
  }

  /** A pass over a page gets through exactly if each listed directory is live when asked for. */
  lemma {:induction false} PersistRows(f: Forest, stores: seq<Forest>, env: Environment, s: ControllerState,
                                        ids: seq<DirectoryID>, answers: seq<Option<Directory>>)
    requires Accurate(f, s.tracked) && RowsFrom(stores, ids, answers) && AlwaysReconciles(env)
    requires forall i | 0 <= i < |stores| :: WellFormed(stores[i]) && Extends(f, stores[i])
    ensures PersistEach(env, s, answers).1 <==> AllLiveAt(stores, ids)
    ensures AllLiveAt(stores, ids) ==>
              var r := PersistEach(env, s, answers).0;
              && r.tracked == WithNew(s.tracked, Elements(ids)) && Accurate(f, r.tracked)
              && (Elements(ids) <= s.tracked.Keys ==> r == s)
    decreases |ids|
  {
    if ids != [] {
      var r := PersistIfStale(env, s, answers[0]);
      PersistRow(f, stores[0], env, s, ids[0]);
      RestIsNewToo(s.tracked, ids);
      if r.1 {
        PersistRows(f, stores[1..], env, r.0, ids[1..], answers[1..]);
        RestIsLive(stores, ids);
      }
    }
  }

  lemma RestIsLive(stores: seq<Forest>, ids: seq<DirectoryID>)
    requires |stores| == |ids| && ids != [] && Live(stores[0], ids[0])
    ensures AllLiveAt(stores, ids) <==> AllLiveAt(stores[1..], ids[1..])
  {
    if AllLiveAt(stores[1..], ids[1..]) {
      forall i | 0 <= i < |ids|
        ensures Live(stores[i], ids[i])
      {
        assert i > 0 ==> stores[i] == stores[1..][i - 1] && ids[i] == ids[1..][i - 1];
      }
    }
  }

  /**
   A full reconcile gets through exactly if every request finds its directory live. Then it adds what it was told of
   and the table lacked; if that was nothing, it has written nothing and called nothing.
   */
  lemma TickFollowed(f: Forest, base: DirectoryID, env: Environment, s: ControllerState,
                     seen: seq<Forest>, a: ClientAnswers)
    requires WellFormed(f) && Accurate(f, s.tracked) && MomentFits(base, f, Ticked(seen, a)) && AlwaysReconciles(env)
    ensures Initialize(env, s, a).1 <==> FindsAll(seen, base)
    ensures FindsAll(seen, base) ==>
              && Initialize(env, s, a).0.tracked.Keys == NextKept(base, s.tracked.Keys, Ticked(seen, a))
              && Accurate(f, Initialize(env, s, a).0.tracked)
    ensures FindsAll(seen, base) && base in s.tracked && Elements(ListedBelow(seen[1], base)) <= s.tracked.Keys ==>
              Initialize(env, s, a) == (s, true)
  {
    PersistRow(f, seen[0], env, s, base);
    var r := PersistIfStale(env, s, a.base);
    if r.1 && Live(seen[1], base) {
      assert PageAnswers(a) == a.fetched;
      PersistRows(f, seen[2..], env, r.0, ListedBelow(seen[1], base), a.fetched);
    }
  }

  lemma ProcessAllLast(env: Environment, s: ControllerState, moments: seq<Moment>)
    requires moments != []
    ensures
      var r := ProcessAll(env, s, Inputs(moments[..|moments| - 1]));
      ProcessAll(env, s, Inputs(moments)) == if r.1 then ProcessInput(env, r.0, InputOf(moments[|moments| - 1])) else r
  {
    var n := |moments| - 1;
    var r, last := ProcessAll(env, s, Inputs(moments[..n])), [InputOf(moments[n])];
    assert Inputs(moments) == Inputs(moments[..n]) + last;
    ProcessAllConcat(env, s, Inputs(moments[..n]), last);
    var q := ProcessInput(env, r.0, last[0]);
    assert last[1..] == [];
    assert ProcessAll(env, q.0, []) == (q.0, true);
    assert ProcessAll(env, r.0, last) == q;
  }

  lemma MomentFollowed(f: Forest, base: DirectoryID, env: Environment, s: ControllerState, m: Moment)
    requires WellFormed(f) && Accurate(f, s.tracked) && MomentFits(base, f, m) && AlwaysReconciles(env)
    ensures ProcessInput(env, s, InputOf(m)).1 <==> !Disturbs(base, s.tracked.Keys, m)
    ensures ProcessInput(env, s, InputOf(m)).1 ==>
              && ProcessInput(env, s, InputOf(m)).0.tracked.Keys == NextKept(base, s.tracked.Keys, m)
              && Accurate(NextView(f, m), ProcessInput(env, s, InputOf(m)).0.tracked)
  {
    match m
    case Consumed(e) => EventFollowed(f, base, env, s, e);
    case Ticked(seen, a) => TickFollowed(f, base, env, s, seen, a);
  }

  lemma NextViewKeeps(f0: Forest, base: DirectoryID, f: Forest, m: Moment)
    requires WellFormed(f) && Extends(f0, f) && MomentFits(base, f, m)
    ensures WellFormed(NextView(f, m)) && Extends(f0, NextView(f, m))
  {
    if m.Consumed? {
      FitsKeeps(f, m.event);
      ExtendsTransitive(f0, f, NextView(f, m));
    }
  }

  /**
   Events in order and once each, full reconciles anywhere between them, from any accurate table: the controller gets
   through without an error exactly when nothing disturbs it, and then it tracks what it has kept, accurately.
   */
  lemma {:induction false} MomentsFollowed(f0: Forest, base: DirectoryID, env: Environment, s: ControllerState,
                                            moments: seq<Moment>)
    requires WellFormed(f0) && MomentsFit(f0, base, moments) && Accurate(f0, s.tracked) && AlwaysReconciles(env)
    ensures WellFormed(View(f0, moments)) && Extends(f0, View(f0, moments))
    ensures ProcessAll(env, s, Inputs(moments)).1 <==> Undisturbed(f0, base, s.tracked.Keys, moments)
    ensures Undisturbed(f0, base, s.tracked.Keys, moments) ==>
              var t := ProcessAll(env, s, Inputs(moments)).0.tracked;
              t.Keys == Kept(base, s.tracked.Keys, moments) && Accurate(View(f0, moments), t)
    decreases |moments|
  {
    if moments == [] {
      assert Inputs(moments) == [];
    } else {
      var before, last := moments[..|moments| - 1], moments[|moments| - 1];
      MomentsFollowed(f0, base, env, s, before);
      NextViewKeeps(f0, base, View(f0, before), last);
      ProcessAllLast(env, s, moments);
      var r := ProcessAll(env, s, Inputs(before));
      if r.1 {
        MomentFollowed(View(f0, before), base, env, r.0, last);
      }
    }
  }

  lemma MomentsSnoc(f0: Forest, base: DirectoryID, kept0: set<DirectoryID>, moments: seq<Moment>, m: Moment)
    ensures View(f0, moments + [m]) == NextView(View(f0, moments), m)
    ensures Kept(base, kept0, moments + [m]) == NextKept(base, Kept(base, kept0, moments), m)
    ensures MomentsFit(f0, base, moments) && WellFormed(View(f0, moments)) ==>
              (MomentsFit(f0, base, moments + [m]) <==> MomentFits(base, View(f0, moments), m))
  {
    assert (moments + [m])[..|moments + [m]| - 1] == moments;
  }

  /** The reconcile that a run starts with is one more input. */
  lemma StartupIsTick(env: Environment, s: ControllerState, a: ClientAnswers, inputs: seq<Input>)
    ensures RunController(env, s, Some(a), inputs) == ProcessAll(env, s, [Tick(a)] + inputs)
  {
    assert ([Tick(a)] + inputs)[0] == Tick(a) && ([Tick(a)] + inputs)[1..] == inputs;
  }
}
