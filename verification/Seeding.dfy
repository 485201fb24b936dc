/** How much of a subtree a full reconcile of an empty table tracks. */
module Seeding {
  import opened Wrappers
  import opened Directories
  import opened Lifecycle
  import opened Ordering
  import opened Storage
  import opened Tracking
  import opened CrdbDriver
  import opened Mirror
  import opened DriverDeletes
  import DriverAgreement

  /**
   The client's true answers to a full reconcile at store `f`: the base, the first page below it, and each of its
   rows.
   */
  ghost predicate AnswersFrom(f: Forest, base: DirectoryID, a: ClientAnswers)
    requires WellFormed(f) && base in f
  {
    && a.base == Some(f[base])
    && a.page == Some(PageOf(LevelList(f, false, base), Built([])))
    && RowsOf(f, a.page.value, a.fetched)
  }

  /** The answers are the live rows of `ids`, in order. */
  ghost predicate RowsOf(f: Forest, ids: seq<DirectoryID>, answers: seq<Option<Directory>>) {
    |answers| == |ids| && forall i | 0 <= i < |ids| :: ids[i] in f && answers[i] == Some(f[ids[i]])
  }

  /** Exactly the directories of `s` are tracked, all as live. */
  ghost predicate TracksLive(t: Table, s: set<DirectoryID>) {
    t.Keys == s && forall x | x in s :: t[x].None?
  }

  lemma SeedTableTracksLive(f: Forest, base: DirectoryID, t: Table, s: set<DirectoryID>)
    requires WellFormed(f) && TracksLive(t, s)
    ensures t == SeedTable(f, base) <==> s == LiveSubtree(f, base)
  {
    assert SeedTable(f, base).Keys == LiveSubtree(f, base);
    if s == LiveSubtree(f, base) {
      assert forall x | x in t :: t[x] == SeedTable(f, base)[x];
    }
  }

  ghost predicate AllNew(f: Forest, tracked: set<DirectoryID>, ids: seq<DirectoryID>) {
    NoDuplicates(ids) && forall i | 0 <= i < |ids| :: Live(f, ids[i]) && ids[i] !in tracked
  }

  lemma {:induction false} PersistEachSeeds(f: Forest, env: Environment, s: ControllerState, tracked: set<DirectoryID>,
                                            ids: seq<DirectoryID>, answers: seq<Option<Directory>>)
    requires WellFormed(f) && AllNew(f, tracked, ids) && RowsOf(f, ids, answers)
    requires TracksLive(s.tracked, tracked) && AlwaysReconciles(env)
    ensures PersistEach(env, s, answers).1
    ensures TracksLive(PersistEach(env, s, answers).0.tracked, tracked + Elements(ids))
    decreases |ids|
  {
    if ids == [] {
      assert tracked + Elements(ids) == tracked;
    } else {
      PersistEachSeeds(f, env, PersistIfStale(env, s, answers[0]).0, tracked + {ids[0]}, ids[1..], answers[1..]);
    }
  }

  lemma LevelListIsNew(f: Forest, base: DirectoryID, n: nat)
    requires WellFormed(f) && Live(f, base) && n <= |LevelList(f, false, base)|
    ensures AllNew(f, {base}, LevelList(f, false, base)[..n])
  {
    var level := LevelList(f, false, base);
    DriverAgreement.ChildrenAgree(f, false, base);
    forall i | 0 <= i < |level|
      ensures Live(f, level[i]) && level[i] != base
    {
      assert level[i] in Elements(level);
      UnderIsYounger(f, false, base, level[i]);
    }
  }

  lemma PrefixIsSubtree(f: Forest, base: DirectoryID, n: nat)
    requires WellFormed(f) && LiveClosure(f) && Live(f, base) && n <= |LevelList(f, false, base)|
    ensures {base} + Elements(LevelList(f, false, base)[..n]) == LiveSubtree(f, base) <==>
              n == |Descendants(f, false, base)|
    ensures |LevelList(f, false, base)| == |Descendants(f, false, base)|
  {
    var level := LevelList(f, false, base);
    LevelIsLiveSubtree(f, base);
    LevelListIsNew(f, base, |level|);
    assert level[..|level|] == level;
    DriverAgreement.ChildrenAgree(f, false, base);
    NoDuplicatesCardinality(level);
    PrefixIsWhole(base, level, n);
  }

  lemma PrefixIsWhole(base: DirectoryID, s: seq<DirectoryID>, n: nat)
    requires n <= |s| && NoDuplicates(s) && forall i | 0 <= i < |s| :: s[i] != base
    ensures {base} + Elements(s[..n]) == {base} + Elements(s) <==> n == |s|
  {
    if n == |s| {
      assert s[..n] == s;
    } else {
      assert s[n] in Elements(s) && s[n] !in s[..n];
    }
  }

  lemma LevelIsLiveSubtree(f: Forest, base: DirectoryID)
    requires WellFormed(f) && LiveClosure(f) && Live(f, base)
    ensures LiveSubtree(f, base) == {base} + Elements(LevelList(f, false, base))
  {
    DriverAgreement.ChildrenAgree(f, false, base);
    forall x
      ensures x in LiveSubtree(f, base) <==> x == base || x in Descendants(f, false, base)
    {
      if Live(f, x) {
        LiveUnder(f, base, x);
      }
    }
  }

  /** A full reconcile of an empty table tracks the base and the first page of its live descendants. */
  lemma SeedingTracks(f: Forest, base: DirectoryID, env: Environment, a: ClientAnswers)
    requires WellFormed(f) && Live(f, base) && AnswersFrom(f, base, a) && AlwaysReconciles(env)
    ensures
      var r := Initialize(env, ControllerState(map[], []), a);
      r.1 && TracksLive(r.0.tracked, {base} + Elements(a.page.value))
  {
    var s := ControllerState(map[], []);
    var level := LevelList(f, false, base);
    var n := Min(DEFAULT_PAGE_SIZE, |level|);
    FirstPage(level);
    assert {} + {base} == {base};
    LevelListIsNew(f, base, n);
    assert PageAnswers(a) == a.fetched;
    PersistEachSeeds(f, env, PersistIfStale(env, s, a.base).0, {base}, level[..n], a.fetched);
  }

  /** That is the whole live subtree exactly when there are at most ten of them. */
  lemma SeedingIsComplete(f: Forest, base: DirectoryID, env: Environment, a: ClientAnswers)
    requires WellFormed(f) && LiveClosure(f) && Live(f, base) && AnswersFrom(f, base, a) && AlwaysReconciles(env)
    ensures Initialize(env, ControllerState(map[], []), a).1
    ensures Initialize(env, ControllerState(map[], []), a).0.tracked == SeedTable(f, base) <==>
              |Descendants(f, false, base)| <= 10
  {
    var level := LevelList(f, false, base);
    var n := Min(DEFAULT_PAGE_SIZE, |level|);
    FirstPage(level);
    SeedingTracks(f, base, env, a);
    PrefixIsSubtree(f, base, n);
    var t := Initialize(env, ControllerState(map[], []), a).0.tracked;
    SeedTableTracksLive(f, base, t, {base} + Elements(level[..n]));
  }

  /** Below a base with eleven children, and one with ten. */
  lemma ElevenChildrenAreTooMany(env: Environment) returns (eleven: ClientAnswers, ten: ClientAnswers)
    requires AlwaysReconciles(env)
    ensures WellFormed(Star(11)) && AnswersFrom(Star(11), 1, eleven)
    ensures Initialize(env, ControllerState(map[], []), eleven).0.tracked != SeedTable(Star(11), 1)
    ensures WellFormed(Star(10)) && AnswersFrom(Star(10), 1, ten)
    ensures Initialize(env, ControllerState(map[], []), ten).0.tracked == SeedTable(Star(10), 1)
  {
    StarShape(11);
    StarShape(10);
    eleven := AnswersExist(Star(11), 1);
    ten := AnswersExist(Star(10), 1);
    SeedingIsComplete(Star(11), 1, env, eleven);
    SeedingIsComplete(Star(10), 1, env, ten);
  }

  lemma AnswersExist(f: Forest, base: DirectoryID) returns (a: ClientAnswers)
    requires WellFormed(f) && Live(f, base)
    ensures AnswersFrom(f, base, a)
  {
    var level := LevelList(f, false, base);
    FirstPage(level);
    var page := PageOf(level, Built([]));
    LevelListIsNew(f, base, |page|);
    a := ClientAnswers(Some(f[base]), Some(page), seq(|page|, i requires 0 <= i < |page| => Some(f[page[i]])));
  }
}
