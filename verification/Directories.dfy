/** The directory forest: rows linked by parent pointers, soft-deleted in place. */
module Directories {
  import opened Wrappers

  /** A UUID. Only equality of ids matters. */
  type DirectoryID = nat

  /**
   A time value as the program holds it, location included, so that equality is Go's `==`; 0 is the zero time.
   The program orders creation times only; other times are ordered just to say that the clock moves on.
   */
  type Time = nat

  type Metadata = map<string, string>

  datatype Directory = Directory(
    id: DirectoryID,
    name: string,
    metadata: Metadata,
    parent: Option<DirectoryID>,
    createdAt: Time,
    updatedAt: Time,
    deletedAt: Option<Time>)
  {
    predicate IsDeleted() {
      deletedAt.Some? && deletedAt.value != 0
    }
  }

  type Forest = map<DirectoryID, Directory>

  /** Rows are keyed by id, parents exist and are older than their children, and no two rows share a creation time. */
  ghost predicate WellFormed(f: Forest) {
    && (forall x | x in f :: f[x].id == x)
    && (forall x | x in f && f[x].parent.Some? :: ParentIsOlder(f, x))
    && (forall x, y | x in f && y in f && f[x].createdAt == f[y].createdAt :: x == y)
  }

  ghost predicate ParentIsOlder(f: Forest, x: DirectoryID)
    requires x in f && f[x].parent.Some?
  {
    f[x].parent.value in f && f[f[x].parent.value].createdAt < f[x].createdAt
  }

  predicate Visible(f: Forest, withDeleted: bool, x: DirectoryID) {
    x in f && (withDeleted || f[x].deletedAt.None?)
  }

  predicate Live(f: Forest, x: DirectoryID) {
    Visible(f, false, x)
  }

  ghost function LiveSet(f: Forest): set<DirectoryID> {
    set x | x in f && Live(f, x)
  }

  /** Walking up from `x` meets `a`, and every row on the way before `a` is visible. */
  ghost predicate Under(f: Forest, withDeleted: bool, a: DirectoryID, x: DirectoryID)
    requires WellFormed(f)
    decreases if x in f then f[x].createdAt else 0
  {
    && Visible(f, withDeleted, x)
    && f[x].parent.Some?
    && (f[x].parent.value == a || (ParentIsOlder(f, x) && Under(f, withDeleted, a, f[x].parent.value)))
  }

  ghost function Descendants(f: Forest, withDeleted: bool, a: DirectoryID): set<DirectoryID>
    requires WellFormed(f)
  {
    set x | x in f && Under(f, withDeleted, a, x)
  }

  /** The visible ancestors of `x`, nearest first, up to the first hidden one. */
  ghost function Chain(f: Forest, withDeleted: bool, x: DirectoryID): seq<DirectoryID>
    requires WellFormed(f)
    decreases if x in f then f[x].createdAt else 0
  {
    if x in f && f[x].parent.Some? && ParentIsOlder(f, x) && Visible(f, withDeleted, f[x].parent.value)
    then [f[x].parent.value] + Chain(f, withDeleted, f[x].parent.value)
    else []
  }

  /** The same walk, stopping once it has reached `a`. */
  ghost function ChainUntil(f: Forest, withDeleted: bool, x: DirectoryID, a: DirectoryID): seq<DirectoryID>
    requires WellFormed(f)
    decreases if x in f then f[x].createdAt else 0
  {
    if x != a && x in f && f[x].parent.Some? && ParentIsOlder(f, x) && Visible(f, withDeleted, f[x].parent.value)
    then [f[x].parent.value] + ChainUntil(f, withDeleted, f[x].parent.value, a)
    else []
  }

  /** Every ancestor, whether deleted or not. */
  ghost function Ancestors(f: Forest, x: DirectoryID): seq<DirectoryID>
    requires WellFormed(f)
  {
    Chain(f, true, x)
  }

  /** The parent of a live directory is live. */
  ghost predicate LiveClosure(f: Forest) {
    forall x | x in f && Live(f, x) && f[x].parent.Some? :: Live(f, f[x].parent.value)
  }

  ghost predicate RootsLive(f: Forest) {
    forall x | x in f && f[x].parent.None? :: Live(f, x)
  }

  /** A downward walk over child edges whose nodes, the first excepted, are all visible. */
  ghost predicate DownPath(f: Forest, withDeleted: bool, p: seq<DirectoryID>) {
    && |p| >= 2
    && forall i | 0 < i < |p| :: Visible(f, withDeleted, p[i]) && f[p[i]].parent == Some(p[i - 1])
  }

  ghost predicate PathBetween(f: Forest, withDeleted: bool, a: DirectoryID, x: DirectoryID, p: seq<DirectoryID>) {
    DownPath(f, withDeleted, p) && p[0] == a && p[|p| - 1] == x
  }

  /** The upward definition of `Under` is reachability over child edges. */
  lemma UnderIffPath(f: Forest, withDeleted: bool, a: DirectoryID, x: DirectoryID)
    requires WellFormed(f)
    ensures Under(f, withDeleted, a, x) <==> exists p :: PathBetween(f, withDeleted, a, x, p)
  {
    if Under(f, withDeleted, a, x) {
      var p := PathTo(f, withDeleted, a, x);
    }
    forall p | PathBetween(f, withDeleted, a, x, p)
      ensures Under(f, withDeleted, a, x)
    {
      PathIsUnder(f, withDeleted, p);
    }
  }

  lemma {:induction false} PathTo(f: Forest, withDeleted: bool, a: DirectoryID, x: DirectoryID)
    returns (p: seq<DirectoryID>)
    requires WellFormed(f) && Under(f, withDeleted, a, x)
    ensures PathBetween(f, withDeleted, a, x, p)
    decreases if x in f then f[x].createdAt else 0
  {
    if f[x].parent.value == a {
      p := [a, x];
    } else {
      var q := PathTo(f, withDeleted, a, f[x].parent.value);
      p := q + [x];
    }
  }

  lemma {:induction false} PathIsUnder(f: Forest, withDeleted: bool, p: seq<DirectoryID>)
    requires WellFormed(f) && DownPath(f, withDeleted, p)
    ensures Under(f, withDeleted, p[0], p[|p| - 1])
  {
    var x := p[|p| - 1];
    assert f[x].parent == Some(p[|p| - 2]);
    if |p| > 2 {
      PathIsUnder(f, withDeleted, p[..|p| - 1]);
      assert ParentIsOlder(f, x);
    }
  }

  /** Walks are acyclic: whatever lies under `a` is younger than `a`. */
  lemma {:induction false} UnderIsYounger(f: Forest, withDeleted: bool, a: DirectoryID, x: DirectoryID)
    requires WellFormed(f) && Under(f, withDeleted, a, x)
    ensures a in f && f[a].createdAt < f[x].createdAt
    decreases if x in f then f[x].createdAt else 0
  {
    assert ParentIsOlder(f, x);
    if f[x].parent.value != a {
      UnderIsYounger(f, withDeleted, a, f[x].parent.value);
    }
  }

  lemma {:induction false} UnderTransitive(f: Forest, withDeleted: bool, a: DirectoryID, b: DirectoryID, x: DirectoryID)
    requires WellFormed(f) && Under(f, withDeleted, a, b) && Under(f, withDeleted, b, x)
    ensures Under(f, withDeleted, a, x)
    decreases if x in f then f[x].createdAt else 0
  {
    assert ParentIsOlder(f, x);
    if f[x].parent.value != b {
      UnderTransitive(f, withDeleted, a, b, f[x].parent.value);
    }
  }

  lemma {:induction false} UnderWithDeleted(f: Forest, a: DirectoryID, x: DirectoryID)
    requires WellFormed(f) && Under(f, false, a, x)
    ensures Under(f, true, a, x)
    decreases if x in f then f[x].createdAt else 0
  {
    assert ParentIsOlder(f, x);
    if f[x].parent.value != a {
      UnderWithDeleted(f, a, f[x].parent.value);
    }
  }

  /** Under live closure a live directory is below `a` exactly when the whole path down to it is live. */
  lemma {:induction false} LiveUnder(f: Forest, a: DirectoryID, x: DirectoryID)
    requires WellFormed(f) && LiveClosure(f) && Live(f, x)
    ensures Under(f, false, a, x) <==> Under(f, true, a, x)
    decreases if x in f then f[x].createdAt else 0
  {
    if f[x].parent.Some? {
      assert ParentIsOlder(f, x);
      LiveUnder(f, a, f[x].parent.value);
    }
  }

  /** The local rule about parents is the global one about all ancestors. */
  lemma LiveClosureIffAncestorsLive(f: Forest)
    requires WellFormed(f)
    ensures LiveClosure(f) <==> forall x, y | Live(f, x) && y in Ancestors(f, x) :: Live(f, y)
  {
    if LiveClosure(f) {
      forall x, y | Live(f, x) && y in Ancestors(f, x)
        ensures Live(f, y)
      {
        LiveAncestors(f, x);
      }
    }
    if forall x, y | Live(f, x) && y in Ancestors(f, x) :: Live(f, y) {
      forall x | x in f && Live(f, x) && f[x].parent.Some?
        ensures Live(f, f[x].parent.value)
      {
        assert ParentIsOlder(f, x);
        assert Ancestors(f, x)[0] == f[x].parent.value;
      }
    }
  }

  lemma {:induction false} LiveAncestors(f: Forest, x: DirectoryID)
    requires WellFormed(f) && LiveClosure(f) && Live(f, x)
    ensures forall y | y in Ancestors(f, x) :: Live(f, y)
    ensures Chain(f, false, x) == Ancestors(f, x)
    decreases if x in f then f[x].createdAt else 0
  {
    if f[x].parent.Some? {
      assert ParentIsOlder(f, x);
      LiveAncestors(f, f[x].parent.value);
    }
  }

  /** A visible directory is on the chain of `x` exactly when `x` is below it. */
  lemma {:induction false} ChainIffUnder(f: Forest, withDeleted: bool, x: DirectoryID, y: DirectoryID)
    requires WellFormed(f) && Visible(f, withDeleted, x) && Visible(f, withDeleted, y)
    ensures y in Chain(f, withDeleted, x) <==> Under(f, withDeleted, y, x)
    decreases if x in f then f[x].createdAt else 0
  {
    if f[x].parent.Some? {
      assert ParentIsOlder(f, x);
      var p := f[x].parent.value;
      if Visible(f, withDeleted, p) {
        ChainIffUnder(f, withDeleted, p, y);
      }
    }
  }

  lemma {:induction false} ChainIsOlder(f: Forest, withDeleted: bool, x: DirectoryID)
    requires WellFormed(f) && x in f
    ensures forall y | y in Chain(f, withDeleted, x) :: Visible(f, withDeleted, y) && f[y].createdAt < f[x].createdAt
    ensures forall i, j | 0 <= i < j < |Chain(f, withDeleted, x)| ::
              Chain(f, withDeleted, x)[i] != Chain(f, withDeleted, x)[j]
    decreases f[x].createdAt
  {
    if f[x].parent.Some? {
      assert ParentIsOlder(f, x);
      ChainIsOlder(f, withDeleted, f[x].parent.value);
    }
  }

  /** A walk that meets `a` splits there, in order. */
  lemma {:induction false} ChainSplits(f: Forest, withDeleted: bool, x: DirectoryID, a: DirectoryID)
    requires WellFormed(f) && x in f && a in Chain(f, withDeleted, x)
    ensures x != a
    ensures Chain(f, withDeleted, x) == ChainUntil(f, withDeleted, x, a) + Chain(f, withDeleted, a)
    ensures ChainUntil(f, withDeleted, x, a) != []
    ensures ChainUntil(f, withDeleted, x, a)[|ChainUntil(f, withDeleted, x, a)| - 1] == a
    decreases f[x].createdAt
  {
    ChainIsOlder(f, withDeleted, x);
    var p := f[x].parent.value;
    assert Chain(f, withDeleted, x) == [p] + Chain(f, withDeleted, p);
    if p == a {
      assert ChainUntil(f, withDeleted, p, a) == [];
    } else {
      ChainSplits(f, withDeleted, p, a);
    }
  }

  /** A set that holds the visible children of `a`, and of each of its own members, holds everything under `a`. */
  lemma {:induction false} ClosedSetHoldsDescendants(f: Forest, withDeleted: bool, a: DirectoryID, s: set<DirectoryID>,
                                                     x: DirectoryID)
    requires WellFormed(f) && Under(f, withDeleted, a, x)
    requires forall y | Visible(f, withDeleted, y) && f[y].parent.Some? ::
               f[y].parent.value == a || f[y].parent.value in s ==> y in s
    ensures x in s
    decreases if x in f then f[x].createdAt else 0
  {
    assert ParentIsOlder(f, x);
    if f[x].parent.value != a {
      ClosedSetHoldsDescendants(f, withDeleted, a, s, f[x].parent.value);
    }
  }

  /** `g` keeps every row of `f` with its parent and creation time, and undeletes nothing. */
  ghost predicate Extends(f: Forest, g: Forest) {
    forall x | x in f ::
      && x in g
      && g[x].parent == f[x].parent
      && g[x].createdAt == f[x].createdAt
      && (f[x].deletedAt.Some? ==> g[x].deletedAt == f[x].deletedAt)
  }

  /** Ancestry among old rows never changes. */
  lemma {:induction false} ExtendsKeepsUnder(f: Forest, g: Forest, a: DirectoryID, x: DirectoryID)
    requires WellFormed(f) && WellFormed(g) && Extends(f, g) && x in f
    ensures Under(f, true, a, x) <==> Under(g, true, a, x)
    decreases f[x].createdAt
  {
    if f[x].parent.Some? {
      assert ParentIsOlder(f, x);
      assert ParentIsOlder(g, x);
      ExtendsKeepsUnder(f, g, a, f[x].parent.value);
    }
  }
}
