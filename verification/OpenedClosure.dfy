/** Which deletes open a gap in the forest: those that take a parent between its lookup and the insert below it. */
module OpenedClosure {
  import opened Directories
  import opened Lifecycle
  import opened Interleaving

  /** For each handler between its two calls, what deletes have taken since its lookup. */
  type Taken = seq<set<DirectoryID>>

  ghost function AddToEach(taken: Taken, more: set<DirectoryID>): Taken {
    seq(|taken|, k requires 0 <= k < |taken| => taken[k] + more)
  }

  ghost function TakenAfter(s: SystemState, step: Step, now: Time, taken: Taken): Taken
    requires WellFormed(s.table) && StepEnabled(s, step, now) && |taken| == |s.pending|
    ensures |TakenAfter(s, step, now, taken)| == |Perform(s, step, now).pending|
  {
    match step
    case InsertChild(which, _) => taken[..which] + taken[which + 1..]
    case WriteDirectory(which) => taken[..which] + taken[which + 1..]
    case MarkSubtree(id, _) => AddToEach(taken, DeleteSet(s.table, id))
    case _ => if |Perform(s, step, now).pending| > |s.pending| then taken + [{}] else taken
  }

  /** Among `steps`, no insert comes after a delete that has taken its parent since that handler's lookup. */
  ghost predicate NoParentTaken(s: SystemState, steps: seq<Timed>, taken: Taken)
    requires Consistent(s) && StepsEnabled(s, steps) && |taken| == |s.pending|
    decreases |steps|
  {
    steps == [] ||
    var step, now := steps[0].step, steps[0].now;
    && (step.InsertChild? ==> s.pending[step.which].parent !in taken[step.which])
    && (PerformKeeps(s, step, now);
        NoParentTaken(Perform(s, step, now), steps[1..], TakenAfter(s, step, now, taken)))
  }

  /** A parent found by a lookup is live until a delete takes it. */
  ghost predicate LiveUntilTaken(f: Forest, p: Pending, taken: set<DirectoryID>) {
    p.PendingCreate? ==> (Live(f, p.parent) <==> p.parent !in taken)
  }

  ghost predicate Accounted(s: SystemState, taken: Taken) {
    |taken| == |s.pending| && forall k | 0 <= k < |s.pending| :: LiveUntilTaken(s.table, s.pending[k], taken[k])
  }

  /** What a step takes. */
  ghost function TakenBy(f: Forest, step: Step): set<DirectoryID>
    requires WellFormed(f)
  {
    if step.MarkSubtree? then DeleteSet(f, step.id) else {}
  }

  /** A stored parent stays live but for a delete. */
  lemma TakenDies(s: SystemState, step: Step, now: Time, p: Pending, taken: set<DirectoryID>)
    requires Consistent(s) && StepEnabled(s, step, now) && Remembers(s.table, p) && LiveUntilTaken(s.table, p, taken)
    ensures LiveUntilTaken(Perform(s, step, now).table, p, taken + TakenBy(s.table, step))
  {
    if step.MarkSubtree? {
      DeleteSetIsLive(s.table, step.id);
      MarkKeepsRows(s.table, DeleteSet(s.table, step.id), now);
    }
  }

  lemma PerformAccounted(s: SystemState, step: Step, now: Time, taken: Taken)
    requires Consistent(s) && StepEnabled(s, step, now) && Accounted(s, taken)
    ensures Accounted(Perform(s, step, now), TakenAfter(s, step, now, taken))
  {
    var t, after := Perform(s, step, now), TakenAfter(s, step, now, taken);
    forall k | 0 <= k < |t.pending|
      ensures LiveUntilTaken(t.table, t.pending[k], after[k])
    {
      var was := if (step.InsertChild? || step.WriteDirectory?) && k >= step.which then k + 1 else k;
      if was < |s.pending| {
        TakenDies(s, step, now, s.pending[was], taken[was]);
        HandlerStays(s, step, now, taken, was, k);
      }
    }
  }

  /** A handler that stays between its calls keeps what it remembers. */
  lemma HandlerStays(s: SystemState, step: Step, now: Time, taken: Taken, was: nat, k: nat)
    requires WellFormed(s.table) && StepEnabled(s, step, now) && |taken| == |s.pending| && was < |s.pending|
    requires k < |Perform(s, step, now).pending|
    requires was == if (step.InsertChild? || step.WriteDirectory?) && k >= step.which then k + 1 else k
    ensures Perform(s, step, now).pending[k] == s.pending[was]
    ensures TakenAfter(s, step, now, taken)[k] == taken[was] + TakenBy(s.table, step)
  {
  }

  lemma {:induction false} TakenMeansDead(s: SystemState, steps: seq<Timed>, taken: Taken)
    requires Consistent(s) && StepsEnabled(s, steps) && Accounted(s, taken)
    ensures InsertsFindLiveParents(s, steps) <==> NoParentTaken(s, steps, taken)
    decreases |steps|
  {
    if steps != [] {
      var step, now := steps[0].step, steps[0].now;
      PerformKeeps(s, step, now);
      PerformAccounted(s, step, now, taken);
      TakenMeansDead(Perform(s, step, now), steps[1..], TakenAfter(s, step, now, taken));
    }
  }

  /**
   Over every interleaving from a live-closed state in which no handler is between its calls: live closure is lost
   exactly when some delete takes a parent after a create has looked it up and before that create's insert.
   */
  lemma ClosureLostByDelete(s: SystemState, steps: seq<Timed>)
    requires Consistent(s) && StepsEnabled(s, steps) && LiveClosure(s.table) && s.pending == []
    ensures ClosedThroughout(s, steps) <==> NoParentTaken(s, steps, [])
  {
    TakenMeansDead(s, steps, []);
    ClosureUnderInterleaving(s, steps);
  }
}
