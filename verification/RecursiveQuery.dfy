/**
 The `WITH RECURSIVE ... UNION` queries of the CockroachDB driver, evaluated as the working-table loop:
 start from the seed rows, join the last batch to the table, drop rows already returned, append the
 batch in creation order, and stop at an empty batch. Rows are taken to be returned in that order.
 */
module RecursiveQuery {
  import opened Wrappers
  import opened Directories
  import opened Ordering

  datatype Query =
    | Children(withDeleted: bool)
    | Parents(withDeleted: bool)
    | ParentsUntil(withDeleted: bool, ancestor: DirectoryID)

  /** The join of the recursive term: row `d` of the table is produced by row `g` of the last batch. */
  predicate Joins(f: Forest, q: Query, g: DirectoryID, d: DirectoryID) {
    && g in f
    && Visible(f, q.withDeleted, d)
    && match q
       case Children(_) => f[d].parent == Some(g)
       case Parents(_) => f[g].parent == Some(d)
       case ParentsUntil(_, ancestor) => f[g].parent == Some(d) && g != ancestor
  }

  ghost predicate Joined(f: Forest, q: Query, working: set<DirectoryID>, d: DirectoryID) {
    exists g | g in working :: Joins(f, q, g, d)
  }

  ghost function Batch(f: Forest, q: Query, working: set<DirectoryID>, seen: set<DirectoryID>): set<DirectoryID> {
    set d | d in f && d !in seen && Joined(f, q, working, d)
  }

  lemma BatchIsNew(f: Forest, q: Query, working: set<DirectoryID>, seen: set<DirectoryID>)
    ensures Batch(f, q, working, seen) <= f.Keys - seen
    ensures Batch(f, q, working, seen) != {} ==> f.Keys - (seen + Batch(f, q, working, seen)) < f.Keys - seen
  {
    var batch := Batch(f, q, working, seen);
    if batch != {} {
      var y :| y in batch;
      assert y in f.Keys - seen && y !in f.Keys - (seen + batch);
    }
  }

  /** The rows appended after `seen`, batch by batch. */
  ghost function Rows(f: Forest, q: Query, working: set<DirectoryID>, seen: set<DirectoryID>): seq<DirectoryID>
    decreases f.Keys - seen
  {
    BatchIsNew(f, q, working, seen);
    var batch := Batch(f, q, working, seen);
    if batch == {} then [] else ByCreation(f, batch) + Rows(f, q, batch, seen + batch)
  }

  lemma RowsUnfold(f: Forest, q: Query, working: set<DirectoryID>, seen: set<DirectoryID>)
    returns (batch: set<DirectoryID>, head: seq<DirectoryID>, tail: seq<DirectoryID>)
    requires WellFormed(f)
    ensures batch == Batch(f, q, working, seen) && batch <= f.Keys - seen
    ensures batch == {} ==> Rows(f, q, working, seen) == []
    ensures batch != {} ==> f.Keys - (seen + batch) < f.Keys - seen
    ensures head == ByCreation(f, batch) && Elements(head) == batch && Ordered(f, head)
    ensures tail == Rows(f, q, batch, seen + batch)
    ensures batch != {} ==> Rows(f, q, working, seen) == head + tail
    ensures batch != {} ==> Elements(Rows(f, q, working, seen)) == batch + Elements(tail)
  {
    BatchIsNew(f, q, working, seen);
    batch := Batch(f, q, working, seen);
    head, tail := ByCreation(f, batch), Rows(f, q, batch, seen + batch);
    ByCreationElements(f, batch);
    ByCreationOrdered(f, batch);
    ElementsConcat(head, tail);
  }

  /** All rows of a query seeded with the single row `start`. */
  ghost function QueryResult(f: Forest, q: Query, start: DirectoryID): seq<DirectoryID> {
    [start] + Rows(f, q, {start}, {start})
  }

  ghost predicate ClosedUnder(f: Forest, q: Query, s: set<DirectoryID>) {
    forall g, d | g in s && Joins(f, q, g, d) :: d in s
  }

  /** `s` is the least set that contains `start` and is closed under the join. */
  ghost predicate IsClosure(f: Forest, q: Query, start: DirectoryID, s: set<DirectoryID>) {
    && start in s
    && ClosedUnder(f, q, s)
    && forall t | start in t && ClosedUnder(f, q, t) :: s <= t
  }

  lemma {:induction false} RowsAreNew(f: Forest, q: Query, working: set<DirectoryID>, seen: set<DirectoryID>)
    requires WellFormed(f)
    ensures NoDuplicates(Rows(f, q, working, seen))
    ensures Elements(Rows(f, q, working, seen)) <= f.Keys - seen
    ensures forall x | x in Elements(Rows(f, q, working, seen)) :: Visible(f, q.withDeleted, x)
    decreases f.Keys - seen
  {
    var batch, head, tail := RowsUnfold(f, q, working, seen);
    if batch != {} {
      RowsAreNew(f, q, batch, seen + batch);
      OrderedHasNoDuplicates(f, head);
      NoDuplicatesConcat(head, tail);
    }
  }

  /** After one batch, the join leads from `seen` nowhere but into `seen + batch`. */
  lemma BatchCloses(f: Forest, q: Query, working: set<DirectoryID>, seen: set<DirectoryID>)
    requires working <= seen
    requires forall g, d | g in seen - working && Joins(f, q, g, d) :: d in seen
    ensures forall g, d | g in seen && Joins(f, q, g, d) :: d in seen + Batch(f, q, working, seen)
  {
    forall g, d | g in seen && Joins(f, q, g, d)
      ensures d in seen + Batch(f, q, working, seen)
    {
      if g in working && d !in seen {
        assert Joined(f, q, working, d);
      }
    }
  }

  lemma {:induction false} RowsClosed(f: Forest, q: Query, working: set<DirectoryID>, seen: set<DirectoryID>)
    requires WellFormed(f) && working <= seen
    requires forall g, d | g in seen - working && Joins(f, q, g, d) :: d in seen
    ensures ClosedUnder(f, q, seen + Elements(Rows(f, q, working, seen)))
    decreases f.Keys - seen
  {
    var batch, head, tail := RowsUnfold(f, q, working, seen);
    BatchCloses(f, q, working, seen);
    if batch == {} {
      assert seen + Elements(Rows(f, q, working, seen)) == seen;
    } else {
      RowsClosed(f, q, batch, seen + batch);
      assert seen + (batch + Elements(tail)) == seen + batch + Elements(tail);
    }
  }

  lemma {:induction false} RowsWithin(f: Forest, q: Query, working: set<DirectoryID>, seen: set<DirectoryID>,
                                      t: set<DirectoryID>)
    requires WellFormed(f) && working <= t && ClosedUnder(f, q, t)
    ensures Elements(Rows(f, q, working, seen)) <= t
    decreases f.Keys - seen
  {
    var batch, head, tail := RowsUnfold(f, q, working, seen);
    if batch != {} {
      RowsWithin(f, q, batch, seen + batch, t);
    }
  }

  /** Whatever the shape of the table, the loop returns the closure of its seed, each row once, the seed first. */
  lemma QueryResultIsClosure(f: Forest, q: Query, start: DirectoryID)
    requires WellFormed(f) && start in f
    ensures IsClosure(f, q, start, Elements(QueryResult(f, q, start)))
    ensures NoDuplicates(QueryResult(f, q, start))
    ensures QueryResult(f, q, start)[0] == start
  {
    RowsAreNew(f, q, {start}, {start});
    RowsClosed(f, q, {start}, {start});
    assert Elements(QueryResult(f, q, start)) == {start} + Elements(Rows(f, q, {start}, {start}));
    forall t | start in t && ClosedUnder(f, q, t)
      ensures Elements(QueryResult(f, q, start)) <= t
    {
      RowsWithin(f, q, {start}, {start}, t);
    }
  }

  lemma DescendantsClosed(f: Forest, withDeleted: bool, a: DirectoryID)
    requires WellFormed(f)
    ensures ClosedUnder(f, Children(withDeleted), {a} + Descendants(f, withDeleted, a))
  {
    var t := {a} + Descendants(f, withDeleted, a);
    forall g, d | g in t && Joins(f, Children(withDeleted), g, d)
      ensures d in t
    {
      assert ParentIsOlder(f, d);
    }
  }

  /** The children query returns its start row and exactly the visible descendants. */
  lemma ChildrenResult(f: Forest, withDeleted: bool, a: DirectoryID)
    requires WellFormed(f) && a in f
    ensures Elements(QueryResult(f, Children(withDeleted), a)) == {a} + Descendants(f, withDeleted, a)
    ensures Elements(Rows(f, Children(withDeleted), {a}, {a})) == Descendants(f, withDeleted, a)
  {
    var q := Children(withDeleted);
    var s, below := Elements(QueryResult(f, q, a)), Descendants(f, withDeleted, a);
    QueryResultIsClosure(f, q, a);
    DescendantsClosed(f, withDeleted, a);
    ClosureHoldsDescendants(f, withDeleted, a, s);
    assert s == {a} + below;
    RowsAreNew(f, q, {a}, {a});
    ElementsConcat([a], Rows(f, q, {a}, {a}));
    assert s == {a} + Elements(Rows(f, q, {a}, {a}));
  }

  lemma ClosureHoldsDescendants(f: Forest, withDeleted: bool, a: DirectoryID, s: set<DirectoryID>)
    requires WellFormed(f) && a in s && ClosedUnder(f, Children(withDeleted), s)
    ensures Descendants(f, withDeleted, a) <= s && a !in Descendants(f, withDeleted, a)
  {
    forall y | Visible(f, withDeleted, y) && f[y].parent.Some? && (f[y].parent.value == a || f[y].parent.value in s)
      ensures y in s
    {
      assert ParentIsOlder(f, y);
      assert Joins(f, Children(withDeleted), f[y].parent.value, y);
    }
    forall x | x in Descendants(f, withDeleted, a)
      ensures x in s && x != a
    {
      ClosedSetHoldsDescendants(f, withDeleted, a, s, x);
      UnderIsYounger(f, withDeleted, a, x);
    }
  }

  /** The children rows list parents first: a parent is in the working table or in an earlier row. */
  lemma {:induction false} ChildrenRowsParentsFirst(f: Forest, withDeleted: bool, working: set<DirectoryID>,
                                                    seen: set<DirectoryID>)
    requires WellFormed(f)
    ensures ParentsFirst(f, working, Rows(f, Children(withDeleted), working, seen))
    decreases f.Keys - seen
  {
    var q := Children(withDeleted);
    var batch, head, tail := RowsUnfold(f, q, working, seen);
    if batch != {} {
      ChildrenRowsParentsFirst(f, withDeleted, batch, seen + batch);
      forall i | 0 <= i < |head|
        ensures ParentBefore(f, working, head[i], head[..i])
      {
        assert head[i] in Elements(head);
      }
      ParentsFirstConcat(f, working, head, tail);
    }
  }

  lemma SingletonByCreation(f: Forest, x: DirectoryID)
    requires x in f
    ensures ByCreation(f, {x}) == [x]
  {
    assert Oldest(f, {x}) == x;
    assert {x} - {x} == {};
    assert ByCreation(f, {}) == [];
  }

  /** The parents query walks the chain of visible ancestors, one row a batch, nearest first. */
  lemma {:induction false} ParentsRows(f: Forest, withDeleted: bool, x: DirectoryID, seen: set<DirectoryID>)
    requires WellFormed(f) && x in f
    requires forall y | y in seen :: y in f && f[y].createdAt >= f[x].createdAt
    ensures Rows(f, Parents(withDeleted), {x}, seen) == Chain(f, withDeleted, x)
    decreases f[x].createdAt
  {
    var q := Parents(withDeleted);
    var batch := Batch(f, q, {x}, seen);
    if f[x].parent.Some? && Visible(f, withDeleted, f[x].parent.value) {
      var p := f[x].parent.value;
      assert ParentIsOlder(f, x);
      assert Joined(f, q, {x}, p);
      assert batch == {p};
      SingletonByCreation(f, p);
      ParentsRows(f, withDeleted, p, seen + batch);
    } else {
      assert batch == {};
    }
  }

  lemma {:induction false} ParentsUntilRows(f: Forest, withDeleted: bool, x: DirectoryID, a: DirectoryID,
                                            seen: set<DirectoryID>)
    requires WellFormed(f) && x in f
    requires forall y | y in seen :: y in f && f[y].createdAt >= f[x].createdAt
    ensures Rows(f, ParentsUntil(withDeleted, a), {x}, seen) == ChainUntil(f, withDeleted, x, a)
    decreases f[x].createdAt
  {
    var q := ParentsUntil(withDeleted, a);
    var batch := Batch(f, q, {x}, seen);
    if x != a && f[x].parent.Some? && Visible(f, withDeleted, f[x].parent.value) {
      var p := f[x].parent.value;
      assert ParentIsOlder(f, x);
      assert Joined(f, q, {x}, p);
      assert batch == {p};
      SingletonByCreation(f, p);
      ParentsUntilRows(f, withDeleted, p, a, seen + batch);
    } else {
      assert batch == {};
    }
  }

  lemma RowsOfNothing(f: Forest, q: Query, seen: set<DirectoryID>)
    ensures Rows(f, q, {}, seen) == []
  {
    assert Batch(f, q, {}, seen) == {};
  }

  lemma RowsStep(f: Forest, q: Query, working: set<DirectoryID>, seen: set<DirectoryID>, before: seq<DirectoryID>)
    requires WellFormed(f)
    ensures Batch(f, q, working, seen) <= f.Keys
    ensures Batch(f, q, working, seen) != {} ==>
              f.Keys - (seen + Batch(f, q, working, seen)) < f.Keys - seen
    ensures before + Rows(f, q, working, seen)
         == before + ByCreation(f, Batch(f, q, working, seen))
             + Rows(f, q, Batch(f, q, working, seen), seen + Batch(f, q, working, seen))
  {
    var batch, head, tail := RowsUnfold(f, q, working, seen);
    if batch == {} {
      RowsOfNothing(f, q, seen + batch);
      assert head == [] && tail == [];
      assert Rows(f, q, working, seen) == head + tail;
    }
    ConcatAssociative(before, head, tail);
  }

  lemma ConcatAssociative<T>(a: seq<T>, b: seq<T>, c: seq<T>)
    ensures a + (b + c) == a + b + c
  {
  }

  /** The engine's loop. Rows joined to the working table are gathered in any order, then sorted by creation time. */
  method Evaluate(f: Forest, q: Query, start: DirectoryID) returns (rows: seq<DirectoryID>)
    requires WellFormed(f) && start in f
    ensures rows == QueryResult(f, q, start)
  {
    rows := [start];
    var working, seen := {start}, {start};
    while working != {}
      invariant QueryResult(f, q, start) == rows + Rows(f, q, working, seen)
      decreases f.Keys - seen, working != {}
    {
      var batch := JoinBatch(f, q, working, seen);
      var sorted := OrderByCreation(f, batch);
      RowsStep(f, q, working, seen, rows);
      rows := rows + sorted;
      working, seen := batch, seen + batch;
    }
    RowsOfNothing(f, q, seen);
  }

  /** The rows that the recursive term joins to the working table, without those already returned. */
  method JoinBatch(f: Forest, q: Query, working: set<DirectoryID>, seen: set<DirectoryID>)
    returns (batch: set<DirectoryID>)
    ensures batch == Batch(f, q, working, seen)
  {
    batch := set d | d in f && d !in seen && exists g | g in working :: Joins(f, q, g, d);
    assert forall d :: (exists g | g in working :: Joins(f, q, g, d)) <==> Joined(f, q, working, d);
  }

  /** `ORDER BY created_at ASC`. */
  method OrderByCreation(f: Forest, s: set<DirectoryID>) returns (r: seq<DirectoryID>)
    requires WellFormed(f) && s <= f.Keys
    ensures r == ByCreation(f, s)
  {
    r := [];
    var rest := s;
    while rest != {}
      invariant rest <= s
      invariant ByCreation(f, s) == r + ByCreation(f, rest)
      decreases rest
    {
      ghost var o := Oldest(f, rest);
      var m :| m in rest && forall y | y in rest :: f[m].createdAt <= f[y].createdAt;
      assert m == o;
      r, rest := r + [m], rest - {m};
    }
  }
}
