/** The read operations in the states that a server can reach. */
module ReachableReads {
  import opened Directories
  import opened Ordering
  import opened Storage
  import opened CreationSort
  import opened ParentWalk
  import opened CrdbDriver
  import opened ServerRuns
  import opened DriverAgreement

  /**
   In every reachable state, for a visible start, the drivers hold the same children and the same parents, and for a
   proper ancestor the same parents up to it; the in-memory walks do not fail.
   */
  lemma DriversAgree(labels: seq<Label>, withDeleted: bool, x: DirectoryID, a: DirectoryID, swaps: seq<(nat, nat)>)
    requires AllEnabled(INITIAL.store, labels) && Visible(Run(INITIAL, labels).store, withDeleted, x)
    ensures WellFormed(Run(INITIAL, labels).store)
    ensures
      var f := Run(INITIAL, labels).store;
      && multiset(LevelList(f, withDeleted, x)) == multiset(DescendantList(f, withDeleted, x))
      && NoDuplicates(LevelList(f, withDeleted, x))
      && WalkVisible(f, withDeleted, x)
      && multiset(ApplySwaps(Ancestors(f, x), swaps)) == multiset(Chain(f, withDeleted, x))
      && NoDuplicates(Chain(f, withDeleted, x))
    ensures
      var f := Run(INITIAL, labels).store;
      Under(f, true, a, x) ==>
        && Visible(f, withDeleted, a) && Under(f, withDeleted, a, x)
        && multiset(ApplySwaps(ChainUntil(f, true, x, a), swaps)) == multiset(ChainUntil(f, withDeleted, x, a))
  {
    var since := RunKeeps(INITIAL, labels);
    var f := Run(INITIAL, labels).store;
    ChildrenAgree(f, withDeleted, x);
    ParentsAgreeUnderClosure(f, withDeleted, x, swaps);
    if Under(f, true, a, x) {
      ParentsUntilAgreeUnderClosure(f, withDeleted, x, a);
      ApplySwapsPermutes(ChainUntil(f, true, x, a), swaps);
    }
  }

  /** In every reachable state the pages of the two lists are dual, in either driver, when one page holds them whole. */
  lemma ReachableDuality(labels: seq<Label>, x: DirectoryID, y: DirectoryID, swaps: seq<(nat, nat)>, o: Options)
    requires AllEnabled(INITIAL.store, labels)
    requires
      var f := Run(INITIAL, labels).store;
      Visible(f, o.withDeleted, x) && Visible(f, o.withDeleted, y) && o.GetPage() == 1 && |f| <= o.GetPageSize()
    ensures WellFormed(Run(INITIAL, labels).store)
    ensures
      var f := Run(INITIAL, labels).store;
      x in PageOf(DescendantList(f, o.withDeleted, y), o) <==> y in PageOf(ApplySwaps(Ancestors(f, x), swaps), o)
    ensures
      var f := Run(INITIAL, labels).store;
      x in LevelList(f, o.withDeleted, y) <==> y in Chain(f, o.withDeleted, x)
  {
    var since := RunKeeps(INITIAL, labels);
    var f := Run(INITIAL, labels).store;
    MemoryDuality(f, x, y, swaps, o);
    Duality(f, o.withDeleted, x, y);
  }
}
