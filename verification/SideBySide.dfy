/** A server and a controller side by side, since the controller was started. */
module SideBySide {
  import opened Wrappers
  import opened Directories
  import opened ServerRuns
  import opened Tracking
  import opened FailingReconciles
  import opened Following

  /**
   `past` are the server's stores since the controller was last busy, the present one last, and `published` the events
   since it was started, of which it has consumed the first `consumed`.
   */
  datatype Joint = Joint(past: seq<Forest>, published: seq<Event>, consumed: nat, moments: seq<Moment>)

  /** `picks` are the positions in `past` of the stores that have answered the requests of a reconcile, in turn. */
  datatype Action = ServeRequest(served: Label) | ConsumeNext | Reconcile(picks: seq<nat>)

  function Present(j: Joint): Forest
    requires j.past != []
  {
    j.past[|j.past| - 1]
  }

  function Seen(past: seq<Forest>, picks: seq<nat>): seq<Forest>
    requires forall i | 0 <= i < |picks| :: picks[i] < |past|
  {
    seq(|picks|, i requires 0 <= i < |picks| => past[picks[i]])
  }

  /** The client's answers from these stores. */
  ghost function AnswersOf(seen: seq<Forest>, base: DirectoryID): ClientAnswers
    requires OnePerRequest(seen, base)
  {
    if Live(seen[1], base)
    then
      var page := ListedBelow(seen[1], base);
      ClientAnswers(RowAt(seen[0], base), Some(page), RowsAt(seen[2..], page))
    else ClientAnswers(RowAt(seen[0], base), None, [])
  }

  function RowsAt(stores: seq<Forest>, ids: seq<DirectoryID>): seq<Option<Directory>>
    requires |stores| == |ids|
  {
    seq(|ids|, i requires 0 <= i < |ids| => RowAt(stores[i], ids[i]))
  }

  /** A reconcile that ends now: its requests came one after another, while the server may have gone on serving. */
  ghost predicate Picked(j: Joint, base: DirectoryID, picks: seq<nat>) {
    && (forall i | 0 <= i < |picks| :: picks[i] < |j.past|)
    && (forall i, k | 0 <= i < k < |picks| :: picks[i] <= picks[k])
    && OnePerRequest(Seen(j.past, picks), base)
  }

  ghost predicate ActionEnabled(j: Joint, base: DirectoryID, action: Action)
    requires j.past != [] && WellFormed(Present(j))
  {
    match action
    case ServeRequest(l) => Enabled(Present(j), l)
    case ConsumeNext => j.consumed < |j.published|
    case Reconcile(picks) => Picked(j, base, picks)
  }

  ghost function Act(j: Joint, base: DirectoryID, action: Action): Joint
    requires j.past != [] && WellFormed(Present(j)) && ActionEnabled(j, base, action)
  {
    match action
    case ServeRequest(l) =>
      j.(past := j.past + [Stored(Present(j), l)], published := j.published + Published(Present(j), l))
    case ConsumeNext =>
      j.(past := [Present(j)], consumed := j.consumed + 1, moments := j.moments + [Consumed(j.published[j.consumed])])
    case Reconcile(picks) =>
      var seen := Seen(j.past, picks);
      j.(past := j.past[picks[|picks| - 1]..], moments := j.moments + [Ticked(seen, AnswersOf(seen, base))])
  }

  ghost predicate Between(view: Forest, store: Forest, last: Forest) {
    WellFormed(store) && Extends(view, store) && Extends(store, last)
  }

  /** The stores grow, from the view on. */
  ghost predicate PastGrows(past: seq<Forest>, view: Forest) {
    WellFormed(view) && past != [] && forall store | store in past :: Between(view, store, past[|past| - 1])
  }

  ghost predicate Watched(f0: Forest, base: DirectoryID, moments: seq<Moment>, view: Forest) {
    MomentsFit(f0, base, moments) && View(f0, moments) == view
  }

  /** The server's side: the published events lead to the present store. */
  ghost predicate ServerInStep(f0: Forest, published: seq<Event>, store: Forest)
    requires WellFormed(f0)
  {
    Sound(store) && Builds(f0, published, store)
  }

  ghost predicate InStep(f0: Forest, base: DirectoryID, j: Joint)
    requires WellFormed(f0)
  {
    && j.consumed <= |j.published|
    && PastGrows(j.past, Fold(f0, j.published[..j.consumed]))
    && ServerInStep(f0, j.published, Present(j))
    && Watched(f0, base, j.moments, Fold(f0, j.published[..j.consumed]))
  }

  lemma PastGrowsOn(past: seq<Forest>, view: Forest, g: Forest)
    requires PastGrows(past, view) && WellFormed(g) && Extends(past[|past| - 1], g)
    ensures PastGrows(past + [g], view) && (past + [g])[|past + [g]| - 1] == g
  {
    forall store | store in past + [g]
      ensures Between(view, store, g)
    {
      var present := past[|past| - 1];
      assert present in past && Between(view, present, present);
      ExtendsTransitive(view, present, g);
      if store in past {
        ExtendsTransitive(store, present, g);
      }
    }
  }

  lemma ServerGoesOn(f0: Forest, published: seq<Event>, store: Forest, l: Label)
    requires WellFormed(f0) && ServerInStep(f0, published, store) && Enabled(store, l)
    ensures ServerInStep(f0, published + Published(store, l), Stored(store, l))
    ensures WellFormed(Stored(store, l)) && Extends(store, Stored(store, l))
  {
    var g, more := ServeKeeps(store, l);
    BuildsConcat(f0, published, store, more, g);
  }

  lemma ActServe(j: Joint, base: DirectoryID, l: Label) returns (k: Joint)
    requires j.past != [] && WellFormed(Present(j)) && Enabled(Present(j), l)
    ensures k == Act(j, base, ServeRequest(l)) && k.past == j.past + [Stored(Present(j), l)]
    ensures k.past != [] && Present(k) == Stored(Present(j), l)
    ensures k.published == j.published + Published(Present(j), l) && k.consumed == j.consumed && k.moments == j.moments
  {
    k := Act(j, base, ServeRequest(l));
  }

  lemma ServeKeepsStep(f0: Forest, base: DirectoryID, j: Joint, l: Label)
    requires WellFormed(f0) && InStep(f0, base, j) && Enabled(Present(j), l)
    ensures InStep(f0, base, Act(j, base, ServeRequest(l)))
  {
    var view := Fold(f0, j.published[..j.consumed]);
    var k := ActServe(j, base, l);
    ServerGoesOn(f0, j.published, Present(j), l);
    PastGrowsOn(j.past, view, Present(k));
    assert k.published[..k.consumed] == j.published[..j.consumed];
  }

  lemma ViewGoesOn(f0: Forest, published: seq<Event>, store: Forest, consumed: nat)
    requires WellFormed(f0) && ServerInStep(f0, published, store) && consumed < |published|
    ensures PastGrows([store], Fold(f0, published[..consumed + 1]))
    ensures
      var view, e := Fold(f0, published[..consumed]), published[consumed];
      WellFormed(view) && Fits(view, e) && Fold(f0, published[..consumed + 1]) == view[e.directory.id := e.directory]
  {
    NextFits(f0, published, consumed);
    PrefixViews(f0, published, consumed + 1);
  }

  lemma ConsumeKeepsStep(f0: Forest, base: DirectoryID, j: Joint)
    requires WellFormed(f0) && InStep(f0, base, j) && j.consumed < |j.published|
    ensures InStep(f0, base, Act(j, base, ConsumeNext))
  {
    ViewGoesOn(f0, j.published, Present(j), j.consumed);
  }

  lemma SeenFits(base: DirectoryID, view: Forest, past: seq<Forest>, picks: seq<nat>, m: Moment)
    requires PastGrows(past, view) && forall i | 0 <= i < |picks| :: picks[i] < |past|
    requires OnePerRequest(Seen(past, picks), base)
    requires m == Ticked(Seen(past, picks), AnswersOf(Seen(past, picks), base))
    ensures MomentFits(base, view, m)
  {
    forall i | 0 <= i < |m.seen|
      ensures WellFormed(m.seen[i]) && Extends(view, m.seen[i])
    {
      assert m.seen[i] in past;
      assert Between(view, m.seen[i], past[|past| - 1]);
    }
  }

  lemma TickIsWatched(f0: Forest, base: DirectoryID, moments: seq<Moment>, view: Forest,
                      past: seq<Forest>, picks: seq<nat>, m: Moment)
    requires Watched(f0, base, moments, view) && PastGrows(past, view)
    requires forall i | 0 <= i < |picks| :: picks[i] < |past|
    requires OnePerRequest(Seen(past, picks), base)
    requires m == Ticked(Seen(past, picks), AnswersOf(Seen(past, picks), base))
    ensures Watched(f0, base, moments + [m], view)
  {
    SeenFits(base, view, past, picks, m);
    MomentsSnoc(f0, base, {}, moments, m);
  }

  lemma PastGrowsLater(past: seq<Forest>, view: Forest, k: nat)
    requires PastGrows(past, view) && k < |past|
    ensures PastGrows(past[k..], view)
  {
    var later := past[k..];
    assert later[|later| - 1] == past[|past| - 1];
    forall store | store in later
      ensures Between(view, store, later[|later| - 1])
    {
      assert store in past;
    }
  }

  lemma ActReconcile(j: Joint, base: DirectoryID, picks: seq<nat>) returns (k: Joint, m: Moment)
    requires j.past != [] && WellFormed(Present(j)) && Picked(j, base, picks)
    ensures k == Act(j, base, Reconcile(picks)) && k == j.(past := k.past, moments := j.moments + [m])
    ensures k.past == j.past[picks[|picks| - 1]..] && k.past != [] && Present(k) == Present(j)
    ensures m == Ticked(Seen(j.past, picks), AnswersOf(Seen(j.past, picks), base))
  {
    k := Act(j, base, Reconcile(picks));
    m := Ticked(Seen(j.past, picks), AnswersOf(Seen(j.past, picks), base));
  }

  lemma ReconcileKeepsStep(f0: Forest, base: DirectoryID, j: Joint, picks: seq<nat>)
    requires WellFormed(f0) && InStep(f0, base, j) && Picked(j, base, picks)
    ensures InStep(f0, base, Act(j, base, Reconcile(picks)))
  {
    var view := Fold(f0, j.published[..j.consumed]);
    var k, m := ActReconcile(j, base, picks);
    TickIsWatched(f0, base, j.moments, view, j.past, picks, m);
    PastGrowsLater(j.past, view, picks[|picks| - 1]);
  }

  lemma ActKeepsStep(f0: Forest, base: DirectoryID, j: Joint, action: Action)
    requires WellFormed(f0) && InStep(f0, base, j) && ActionEnabled(j, base, action)
    ensures InStep(f0, base, Act(j, base, action))
  {
    match action
    case ServeRequest(l) => ServeKeepsStep(f0, base, j, l);
    case ConsumeNext => ConsumeKeepsStep(f0, base, j);
    case Reconcile(picks) => ReconcileKeepsStep(f0, base, j, picks);
  }

  ghost predicate ActionsEnabled(f0: Forest, base: DirectoryID, j: Joint, actions: seq<Action>)
    requires WellFormed(f0) && InStep(f0, base, j)
    decreases |actions|
  {
    actions == [] ||
    (ActionEnabled(j, base, actions[0]) &&
     (ActKeepsStep(f0, base, j, actions[0]);
      ActionsEnabled(f0, base, Act(j, base, actions[0]), actions[1..])))
  }

  ghost function RunActions(f0: Forest, base: DirectoryID, j: Joint, actions: seq<Action>): Joint
    requires WellFormed(f0) && InStep(f0, base, j) && ActionsEnabled(f0, base, j, actions)
    decreases |actions|
  {
    if actions == [] then j
    else
      ActKeepsStep(f0, base, j, actions[0]);
      RunActions(f0, base, Act(j, base, actions[0]), actions[1..])
  }

  lemma {:induction false} RunKeepsStep(f0: Forest, base: DirectoryID, j: Joint, actions: seq<Action>)
    requires WellFormed(f0) && InStep(f0, base, j) && ActionsEnabled(f0, base, j, actions)
    ensures InStep(f0, base, RunActions(f0, base, j, actions))
    decreases |actions|
  {
    if actions != [] {
      ActKeepsStep(f0, base, j, actions[0]);
      RunKeepsStep(f0, base, Act(j, base, actions[0]), actions[1..]);
    }
  }

  /** `actions` lead from `i` to `j`. */
  ghost predicate Reaches(f0: Forest, base: DirectoryID, i: Joint, actions: seq<Action>, j: Joint)
    requires WellFormed(f0) && InStep(f0, base, i)
  {
    ActionsEnabled(f0, base, i, actions) && RunActions(f0, base, i, actions) == j
  }

  lemma ReachesCons(f0: Forest, base: DirectoryID, i: Joint, first: Action, rest: seq<Action>, j: Joint)
    requires WellFormed(f0) && InStep(f0, base, i) && ActionEnabled(i, base, first)
    requires InStep(f0, base, Act(i, base, first)) && Reaches(f0, base, Act(i, base, first), rest, j)
    ensures Reaches(f0, base, i, [first] + rest, j)
  {
    var actions := [first] + rest;
    assert actions[0] == first && actions[1..] == rest;
  }

  ghost function Started(f0: Forest, base: DirectoryID): (j: Joint)
    requires Sound(f0)
    ensures InStep(f0, base, j)
  {
    Joint([f0], [], 0, [])
  }

  /**
   The server serves requests, the controller consumes events and reconciles in full, requests being served between
   the requests of a reconcile as well, in any interleaving and from any accurate table, such as the empty one. There
   has been no error exactly if every reconcile call has succeeded and nothing has disturbed the controller; then it
   tracks exactly what it has kept, with the deletion marks of the consumed view.
   */
  lemma FollowSideBySide(f0: Forest, base: DirectoryID, actions: seq<Action>, env: Environment, s: ControllerState)
    requires Sound(f0) && ActionsEnabled(f0, base, Started(f0, base), actions) && Accurate(f0, s.tracked)
    ensures
      var j := RunActions(f0, base, Started(f0, base), actions);
      var view, r := View(f0, j.moments), ProcessAll(env, s, Inputs(j.moments));
      var asked := ProcessAll(Obliging(env), s, Inputs(j.moments)).0.calls;
      && InStep(f0, base, j) && WellFormed(view)
      && (r.1 <==> Undisturbed(f0, base, s.tracked.Keys, j.moments) && Succeeds(env, |s.calls|, |asked|))
      && (r.1 ==> r.0.tracked.Keys == Kept(base, s.tracked.Keys, j.moments) && Accurate(view, r.0.tracked))
  {
    RunKeepsStep(f0, base, Started(f0, base), actions);
    var j := RunActions(f0, base, Started(f0, base), actions);
    MomentsFollowed(f0, base, Obliging(env), s, j.moments);
    ProcessAllCutsOff(env, s, Inputs(j.moments));
  }
}
