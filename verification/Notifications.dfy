/** Where the events of a run are: published, waiting in their handler's queue, or given up. */
module Notifications {
  import opened Directories
  import opened Ordering
  import opened Interleaving

  /** How often `n` occurs in `s`. */
  ghost function Times(s: seq<nat>, n: nat): nat {
    multiset(s)[n]
  }

  /** How often event `n` waits to be sent. */
  ghost function Queued(unsent: seq<seq<nat>>, n: nat): nat {
    if unsent == [] then 0 else Queued(unsent[..|unsent| - 1], n) + Times(unsent[|unsent| - 1], n)
  }

  ghost function SentOrQueued(s: SystemState, n: nat): nat {
    Times(s.sent, n) + Queued(s.unsent, n)
  }

  /** A handler that gives up leaves unpublished all it had still to send. */
  ghost function DroppedBy(s: SystemState, step: Step, n: nat): nat {
    if step.GiveUp? && step.which < |s.unsent| then Times(s.unsent[step.which], n) else 0
  }

  ghost function Dropped(s: SystemState, steps: seq<Timed>, n: nat): nat
    requires Consistent(s) && StepsEnabled(s, steps)
    decreases |steps|
  {
    if steps == [] then 0
    else
      PerformKeeps(s, steps[0].step, steps[0].now);
      DroppedBy(s, steps[0].step, n) + Dropped(Perform(s, steps[0].step, steps[0].now), steps[1..], n)
  }

  lemma TimesConcat(a: seq<nat>, b: seq<nat>, n: nat)
    ensures Times(a + b, n) == Times(a, n) + Times(b, n)
  {
  }

  lemma {:induction false} QueuedAt(unsent: seq<seq<nat>>, which: nat, queue: seq<nat>, n: nat)
    requires which < |unsent|
    ensures Queued(unsent[which := queue], n) + Times(unsent[which], n) == Queued(unsent, n) + Times(queue, n)
    decreases |unsent|
  {
    var last, changed := |unsent| - 1, unsent[which := queue];
    if which < last {
      assert changed[..last] == unsent[..last][which := queue];
      QueuedAt(unsent[..last], which, queue, n);
    } else {
      assert changed[..last] == unsent[..last];
    }
  }

  lemma {:induction false} SerialsOnce(from: nat, count: nat, n: nat)
    ensures Times(Serials(from, count), n) == if from <= n < from + count then 1 else 0
    decreases count
  {
    if count > 0 {
      SerialsOnce(from, count - 1, n);
      assert Serials(from, count) == Serials(from, count - 1) + [from + count - 1];
    }
  }

  lemma SendMoves(s: SystemState, which: nat, n: nat)
    requires which < |s.unsent| && s.unsent[which] != []
    ensures
      var x, rest := s.unsent[which][0], s.unsent[which][1..];
      Times(s.sent + [x], n) + Queued(s.unsent[which := rest], n) == SentOrQueued(s, n)
  {
    var x, rest := s.unsent[which][0], s.unsent[which][1..];
    QueuedAt(s.unsent, which, rest, n);
    assert s.unsent[which] == [x] + rest;
    TimesConcat([x], rest, n);
    TimesConcat(s.sent, [x], n);
  }

  /** What a step writes begins to wait, in the queue of the handler that wrote it. */
  lemma WriteQueues(s: SystemState, step: Step, now: Time)
    requires Consistent(s) && StepEnabled(s, step, now) && !step.Send? && !step.GiveUp?
    ensures
      var t := Perform(s, step, now);
      && t.sent == s.sent && |t.written| >= |s.written|
      && (t.unsent == s.unsent + [Serials(|s.written|, |t.written| - |s.written|)] ||
          (t.unsent == s.unsent && t.written == s.written))
  {
  }

  /** A step moves events, drops those of a handler that gives up, and adds those of a write. */
  lemma PerformConserves(s: SystemState, step: Step, now: Time, n: nat)
    requires Consistent(s) && StepEnabled(s, step, now)
    ensures
      var t := Perform(s, step, now);
      && |t.written| >= |s.written|
      && SentOrQueued(t, n) + DroppedBy(s, step, n) ==
           SentOrQueued(s, n) + if |s.written| <= n < |t.written| then 1 else 0
  {
    if step.Send? {
      SendMoves(s, step.which, n);
    } else if step.GiveUp? {
      QueuedAt(s.unsent, step.which, [], n);
    } else {
      var t := Perform(s, step, now);
      WriteQueues(s, step, now);
      var more := Serials(|s.written|, |t.written| - |s.written|);
      SerialsOnce(|s.written|, |t.written| - |s.written|, n);
    }
  }

  lemma {:induction false} RunConserves(s: SystemState, steps: seq<Timed>, n: nat)
    requires Consistent(s) && StepsEnabled(s, steps)
    ensures
      var t := RunSteps(s, steps);
      && |t.written| >= |s.written|
      && SentOrQueued(t, n) + Dropped(s, steps, n) ==
           SentOrQueued(s, n) + if |s.written| <= n < |t.written| then 1 else 0
    decreases |steps|
  {
    if steps != [] {
      PerformKeeps(s, steps[0].step, steps[0].now);
      PerformConserves(s, steps[0].step, steps[0].now, n);
      RunConserves(Perform(s, steps[0].step, steps[0].now), steps[1..], n);
    }
  }

  /** Each event that has been written is once in `sent` or in a queue, as it is as long as no handler gives up. */
  ghost predicate EachOnce(s: SystemState) {
    forall n: nat :: SentOrQueued(s, n) == if n < |s.written| then 1 else 0
  }

  /**
   Over every interleaving, each event ever written is in exactly one place: published, waiting to be, or dropped with
   its handler. So no event is published twice, and none that was dropped is published.
   */
  lemma EventsConserved(s: SystemState, steps: seq<Timed>)
    requires Consistent(s) && StepsEnabled(s, steps) && EachOnce(s)
    ensures
      var t := RunSteps(s, steps);
      && (forall n: nat :: SentOrQueued(t, n) + Dropped(s, steps, n) == if n < |t.written| then 1 else 0)
      && NoDuplicates(t.sent)
      && (forall n: nat | Dropped(s, steps, n) > 0 :: n !in t.sent)
  {
    var t := RunSteps(s, steps);
    forall n: nat
      ensures SentOrQueued(t, n) + Dropped(s, steps, n) == if n < |t.written| then 1 else 0
    {
      RunConserves(s, steps, n);
    }
    forall n: nat
      ensures Times(t.sent, n) + Dropped(s, steps, n) <= 1
    {
      assert SentOrQueued(t, n) + Dropped(s, steps, n) <= 1;
    }
    OnceMeansDistinct(t.sent);
  }

  lemma OnceMeansDistinct(s: seq<nat>)
    requires forall n: nat :: Times(s, n) <= 1
    ensures NoDuplicates(s)
  {
    forall i, j | 0 <= i < j < |s|
      ensures s[i] != s[j]
    {
      assert s == s[..j] + s[j..];
      TimesConcat(s[..j], s[j..], s[j]);
      assert s[j..][0] == s[j] && Times(s, s[j]) <= 1;
      assert s[i] in s[..j];
    }
  }

  /** A handler whose notification has failed sends nothing more, whatever happens afterwards. */
  lemma SilentOnceGivenUp(s: SystemState, which: nat, now: Time, steps: seq<Timed>)
    requires Consistent(s) && StepEnabled(s, GiveUp(which), now) && Consistent(Perform(s, GiveUp(which), now))
    requires StepsEnabled(Perform(s, GiveUp(which), now), steps)
    ensures forall k | 0 <= k < |steps| :: steps[k].step != Send(which)
    ensures
      var t := RunSteps(Perform(s, GiveUp(which), now), steps);
      which < |t.unsent| && t.unsent[which] == []
  {
    EmptyStaysEmpty(Perform(s, GiveUp(which), now), which, steps);
  }

  lemma {:induction false} EmptyStaysEmpty(s: SystemState, which: nat, steps: seq<Timed>)
    requires Consistent(s) && StepsEnabled(s, steps) && which < |s.unsent| && s.unsent[which] == []
    ensures forall k | 0 <= k < |steps| :: steps[k].step != Send(which)
    ensures which < |RunSteps(s, steps).unsent| && RunSteps(s, steps).unsent[which] == []
    decreases |steps|
  {
    if steps != [] {
      var first, rest := steps[0], steps[1..];
      PerformKeeps(s, first.step, first.now);
      EmptyStaysEmpty(Perform(s, first.step, first.now), which, rest);
      assert steps == [first] + rest;
    }
  }
}
