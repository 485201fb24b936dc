/**
 What the published events tell of the table when handlers interleave: writes meet rows deleted meanwhile, and events
 are sent late, out of order, or not at all.
 */
module InterleavedLog {
  import opened Wrappers
  import opened Directories
  import opened Lifecycle
  import opened Ordering
  import opened ServerRuns
  import opened Interleaving

  /** The published row `a` differs from the stored row `b` in lacking its deletion time. */
  predicate Stale(a: Directory, b: Directory) {
    b.deletedAt.Some? && a == b.(deletedAt := None)
  }

  /** Folding the events gives the stored rows, but perhaps without the deletion times of some deleted ones. */
  ghost predicate Tells(f: Forest, table: Forest) {
    f.Keys == table.Keys && forall x | x in table :: f[x] == table[x] || Stale(f[x], table[x])
  }

  ghost predicate FindsLiveRow(s: SystemState, step: Step) {
    step.WriteDirectory? && step.which < |s.pending| && s.pending[step.which].PendingUpdate? ==>
      Live(s.table, s.pending[step.which].fetched.id)
  }

  /** Each write of an update among `steps` finds the row that was fetched before still live. */
  ghost predicate WritesFindLiveRows(s: SystemState, steps: seq<Timed>)
    requires Consistent(s) && StepsEnabled(s, steps)
    decreases |steps|
  {
    steps == [] ||
    (&& FindsLiveRow(s, steps[0].step)
     && (PerformKeeps(s, steps[0].step, steps[0].now);
         WritesFindLiveRows(Perform(s, steps[0].step, steps[0].now), steps[1..])))
  }

  lemma {:induction false} FoldDeletes(f: Forest, table: Forest, ids: seq<DirectoryID>, now: Time)
    requires WellFormed(table) && Elements(ids) <= table.Keys
    ensures
      var g := Fold(f, DeleteEvents(table, ids, now));
      && g.Keys == f.Keys + Elements(ids)
      && forall x | x in g :: g[x] == if x in Elements(ids) then table[x].(deletedAt := Some(now)) else f[x]
    decreases |ids|
  {
    if ids != [] {
      var rest, x := ids[..|ids| - 1], ids[|ids| - 1];
      ElementsSnoc(ids);
      assert x in Elements(ids);
      FoldDeletes(f, table, rest, now);
      FoldSnoc(f, DeleteEvents(table, rest, now), Event(DeleteEvent, table[x].(deletedAt := Some(now))));
    }
  }

  /** One more event about a stored or a new row. */
  lemma TellsPut(f: Forest, table: Forest, x: DirectoryID, told: Directory, stored: Directory)
    requires Tells(f, table) && (told == stored || Stale(told, stored))
    requires x in table && Stale(f[x], table[x]) ==> Stale(told, stored)
    ensures Tells(f[x := told], table[x := stored])
    ensures x in table ==>
              (f[x := told] == table[x := stored] <==>
               told == stored && forall y | y in table && y != x :: f[y] == table[y])
    ensures x !in table ==> (f[x := told] == table[x := stored] <==> told == stored && f == table)
  {
    var g, u := f[x := told], table[x := stored];
    if g == u {
      assert g[x] == u[x];
      assert forall y | y in table && y != x :: g[y] == u[y];
    }
    if x !in table && g == u {
      assert forall y | y in table :: y != x;
    }
  }

  lemma TellsDeletes(f: Forest, table: Forest, ids: seq<DirectoryID>, now: Time)
    requires WellFormed(table) && Tells(f, table) && forall x | x in Elements(ids) :: Live(table, x)
    ensures Tells(Fold(f, DeleteEvents(table, ids, now)), MarkDeleted(table, Elements(ids), now))
    ensures Fold(f, DeleteEvents(table, ids, now)) == MarkDeleted(table, Elements(ids), now) <==> f == table
  {
    FoldDeletes(f, table, ids, now);
    var g, u := Fold(f, DeleteEvents(table, ids, now)), MarkDeleted(table, Elements(ids), now);
    if g == u {
      forall x | x in table
        ensures f[x] == table[x]
      {
        assert g[x] == u[x];
      }
    }
  }

  /** A step leaves the history as good as it was, unless it writes an update into a deleted row. */
  lemma PerformTells(s: SystemState, step: Step, now: Time)
    requires Consistent(s) && StepEnabled(s, step, now) && Tells(Fold(map[], s.written), s.table)
    ensures
      var t := Perform(s, step, now);
      && Tells(Fold(map[], t.written), t.table)
      && (Fold(map[], t.written) == t.table <==> Fold(map[], s.written) == s.table && FindsLiveRow(s, step))
  {
    var f := Fold(map[], s.written);
    match step
    case InsertRoot(id, name, metadata) =>
      PutTells(s, NewRow(id, name, metadata, None, now));
    case InsertChild(which, id) =>
      assert Remembers(s.table, s.pending[which]);
      PutTells(s, Created(s.pending[which], id, now));
    case WriteDirectory(which) =>
      WriteTells(s, which, now);
    case MarkSubtree(id, affected) =>
      DeleteSetIsLive(s.table, id);
      FoldConcat(map[], s.written, DeleteEvents(s.table, affected, now));
      TellsDeletes(f, s.table, affected, now);
    case _ =>
  }

  lemma PutTells(s: SystemState, d: Directory)
    requires Tells(Fold(map[], s.written), s.table) && d.id !in s.table
    ensures Tells(Fold(map[], s.written + [Event(CreateEvent, d)]), s.table[d.id := d])
    ensures Fold(map[], s.written + [Event(CreateEvent, d)]) == s.table[d.id := d] <==>
            Fold(map[], s.written) == s.table
  {
    FoldSnoc(map[], s.written, Event(CreateEvent, d));
    TellsPut(Fold(map[], s.written), s.table, d.id, d, d);
  }

  lemma WriteTells(s: SystemState, which: nat, now: Time)
    requires Consistent(s) && StepEnabled(s, WriteDirectory(which), now) && Tells(Fold(map[], s.written), s.table)
    ensures
      var t := Perform(s, WriteDirectory(which), now);
      && Tells(Fold(map[], t.written), t.table)
      && (Fold(map[], t.written) == t.table <==>
           Fold(map[], s.written) == s.table && Live(s.table, s.pending[which].fetched.id))
  {
    var f, p := Fold(map[], s.written), s.pending[which];
    var x := p.fetched.id;
    assert Remembers(s.table, p) && s.table[x].id == x;
    var told, stored := Written(p, p.fetched, now), Written(p, s.table[x], now);
    assert told == stored || Stale(told, stored);
    assert Stale(told, stored) <==> !Live(s.table, x);
    FoldSnoc(map[], s.written, Event(UpdateEvent, told));
    TellsPut(f, s.table, x, told, stored);
    assert Live(s.table, x) ==> f[x] == s.table[x];
  }

  /** When the write that `d` tells of happened. */
  function Touched(d: Directory): Time {
    if d.deletedAt.Some? then d.deletedAt.value else d.updatedAt
  }

  /** Events about the same directory were written one after another. */
  ghost predicate InOrder(written: seq<Event>) {
    && (forall i, j | 0 <= i < j < |written| && written[i].directory.id == written[j].directory.id ::
          Touched(written[i].directory) < Touched(written[j].directory))
    && (forall i | 0 <= i < |written| :: written[i].directory.updatedAt <= Touched(written[i].directory))
  }

  /** The history of events accounts for the table. */
  ghost predicate Recorded(s: SystemState) {
    Tells(Fold(map[], s.written), s.table) && InOrder(s.written)
  }

  lemma InOrderConcat(a: seq<Event>, b: seq<Event>, now: Time)
    requires InOrder(a) && forall i | 0 <= i < |a| :: Passed(a[i].directory, now)
    requires forall i | 0 <= i < |b| :: Touched(b[i].directory) == now && b[i].directory.updatedAt <= now
    requires forall i, j | 0 <= i < j < |b| :: b[i].directory.id != b[j].directory.id
    ensures InOrder(a + b)
  {
    var s := a + b;
    forall i, j | 0 <= i < j < |s|
      ensures s[i].directory.id == s[j].directory.id ==> Touched(s[i].directory) < Touched(s[j].directory)
    {
      if i >= |a| {
        assert s[i] == b[i - |a|] && s[j] == b[j - |a|];
      }
    }
  }

  /** Every step keeps the order of the history. */
  lemma PerformKeepsOrder(s: SystemState, step: Step, now: Time)
    requires Consistent(s) && StepEnabled(s, step, now) && InOrder(s.written)
    ensures InOrder(Perform(s, step, now).written)
  {
    var t := Perform(s, step, now);
    match step
    case InsertRoot(id, name, metadata) =>
      InOrderConcat(s.written, [Event(CreateEvent, NewRow(id, name, metadata, None, now))], now);
    case InsertChild(which, id) =>
      InOrderConcat(s.written, [Event(CreateEvent, Created(s.pending[which], id, now))], now);
    case WriteDirectory(which) =>
      var p := s.pending[which];
      assert Remembers(s.table, p);
      InOrderConcat(s.written, [Event(UpdateEvent, Written(p, p.fetched, now))], now);
    case MarkSubtree(id, affected) =>
      DeleteEventsAt(s.table, affected, now);
      assert forall i | 0 <= i < |affected| :: s.table[affected[i]].id == affected[i];
      InOrderConcat(s.written, DeleteEvents(s.table, affected, now), now);
    case _ =>
  }

  /** Over every interleaving the history gives the table exactly when updates are written into live rows only. */
  lemma {:induction false} HistoryUnderInterleaving(s: SystemState, steps: seq<Timed>)
    requires Consistent(s) && StepsEnabled(s, steps) && Recorded(s)
    ensures
      var t := RunSteps(s, steps);
      && Consistent(t) && Recorded(t)
      && (Fold(map[], t.written) == t.table <==> Fold(map[], s.written) == s.table && WritesFindLiveRows(s, steps))
    decreases |steps|
  {
    if steps != [] {
      PerformKeeps(s, steps[0].step, steps[0].now);
      PerformTells(s, steps[0].step, steps[0].now);
      PerformKeepsOrder(s, steps[0].step, steps[0].now);
      HistoryUnderInterleaving(Perform(s, steps[0].step, steps[0].now), steps[1..]);
    }
  }

  /** The last event published about `x` is the last one that a write of `x` has given rise to. */
  ghost predicate LastIsSentLast(s: SystemState, x: DirectoryID)
    requires SentWritten(s)
  {
    exists k :: 0 <= k < |s.sent| && LastAbout(Log(s), x, k) && LastAbout(s.written, x, s.sent[k])
  }

  lemma {:induction false} FoldHas(log: seq<Event>, x: DirectoryID) returns (k: int)
    requires x in Fold(map[], log)
    ensures LastAbout(log, x, k) && Fold(map[], log)[x] == log[k].directory
  {
    if forall i | 0 <= i < |log| :: log[i].directory.id != x {
      FoldWithout(map[], log, x);
      assert false;
    }
    k := LastExists(log, x);
    FoldIsLast(map[], log, x, k);
  }

  lemma LogHasOnlyWritten(s: SystemState, x: DirectoryID)
    requires SentWritten(s) && x in Fold(map[], Log(s))
    ensures x in Fold(map[], s.written)
  {
    var k := FoldHas(Log(s), x);
    if x !in Fold(map[], s.written) {
      var j := LastExists(s.written, x);
      FoldIsLast(map[], s.written, x, j);
      assert false;
    }
  }

  lemma SentLastTells(s: SystemState, x: DirectoryID)
    requires SentWritten(s) && LastIsSentLast(s, x)
    ensures x in Fold(map[], Log(s)) && x in Fold(map[], s.written)
    ensures Fold(map[], Log(s))[x] == Fold(map[], s.written)[x]
  {
    var k :| 0 <= k < |s.sent| && LastAbout(Log(s), x, k) && LastAbout(s.written, x, s.sent[k]);
    FoldIsLast(map[], Log(s), x, k);
    FoldIsLast(map[], s.written, x, s.sent[k]);
  }

  /** A log that tells the row of `x` ends, about `x`, with the last write; and that write was into a live row. */
  lemma TellsSentLast(s: SystemState, x: DirectoryID)
    requires SentWritten(s) && Recorded(s) && x in s.table
    requires x in Fold(map[], Log(s)) && Fold(map[], Log(s))[x] == s.table[x]
    ensures LastIsSentLast(s, x) && Fold(map[], s.written)[x] == s.table[x]
  {
    var k := FoldHas(Log(s), x);
    var j := FoldHas(s.written, x);
    var i := s.sent[k];
    assert s.written[i].directory == s.table[x];
    assert i == j;
  }

  /**
   At any time: folding the published events gives the table exactly if every write was into a live row and, for each
   directory, the last event written is the last one published.
   */
  lemma LogTells(s: SystemState)
    requires Consistent(s) && Recorded(s)
    ensures Fold(map[], Log(s)) == s.table <==>
              Fold(map[], s.written) == s.table && forall x | x in s.table :: LastIsSentLast(s, x)
  {
    if Fold(map[], Log(s)) == s.table {
      forall x | x in s.table
        ensures LastIsSentLast(s, x) && Fold(map[], s.written)[x] == s.table[x]
      {
        TellsSentLast(s, x);
      }
    }
    if Fold(map[], s.written) == s.table && forall x | x in s.table :: LastIsSentLast(s, x) {
      forall x
        ensures x in Fold(map[], Log(s)) <==> x in s.table
        ensures x in s.table ==> Fold(map[], Log(s))[x] == s.table[x]
      {
        if x in s.table {
          SentLastTells(s, x);
        } else if x in Fold(map[], Log(s)) {
          LogHasOnlyWritten(s, x);
        }
      }
    }
  }

  /**
   Over every interleaving, with notifications late, out of order or failing: folding what has been published gives
   the table exactly when no update was written into a row deleted since it was fetched and, for each directory, the
   last event written is the last one published.
   */
  lemma LogUnderInterleaving(s: SystemState, steps: seq<Timed>)
    requires Consistent(s) && StepsEnabled(s, steps) && Recorded(s) && Fold(map[], s.written) == s.table
    ensures
      var t := RunSteps(s, steps);
      && Consistent(t)
      && (Fold(map[], Log(t)) == t.table <==>
            WritesFindLiveRows(s, steps) && forall x | x in t.table :: LastIsSentLast(t, x))
  {
    HistoryUnderInterleaving(s, steps);
    LogTells(RunSteps(s, steps));
  }

  lemma {:induction false} WritesSnoc(s: SystemState, steps: seq<Timed>, t: SystemState, step: Step, now: Time)
    returns (more: seq<Timed>, u: SystemState)
    requires Consistent(s) && Leads(s, steps, t) && StepEnabled(t, step, now)
    ensures more == steps + [Timed(step, now)] && u == Perform(t, step, now)
    ensures Leads(s, more, u) && ClockPassed(u, now + 1)
    ensures WritesFindLiveRows(s, more) <==> WritesFindLiveRows(s, steps) && FindsLiveRow(t, step)
    decreases |steps|
  {
    more, u := OneMoreStep(s, steps, t, step, now);
    if steps == [] {
      assert more[0] == Timed(step, now) && more[1..] == [];
    } else {
      PerformKeeps(s, steps[0].step, steps[0].now);
      assert more[0] == steps[0] && more[1..] == steps[1..] + [Timed(step, now)];
      var rest, v := WritesSnoc(Perform(s, steps[0].step, steps[0].now), steps[1..], t, step, now);
    }
  }

  lemma FetchMore(s: SystemState, steps: seq<Timed>, t: SystemState, x: DirectoryID, newName: Option<string>, now: Time)
    returns (more: seq<Timed>, u: SystemState)
    requires Consistent(s) && Leads(s, steps, t) && ClockPassed(t, now) && Live(t.table, x)
    ensures Leads(s, more, u) && |more| == |steps| + 1 && ClockPassed(u, now + 1)
    ensures WritesFindLiveRows(s, more) <==> WritesFindLiveRows(s, steps)
    ensures t.table[x].id == x
    ensures u == t.(pending := t.pending + [PendingUpdate(t.table[x], newName, None)])
  {
    more, u := WritesSnoc(s, steps, t, FetchDirectory(x, newName, None), now);
  }

  lemma WriteMore(s: SystemState, steps: seq<Timed>, t: SystemState, which: nat, now: Time)
    returns (more: seq<Timed>, u: SystemState)
    requires Consistent(s) && Leads(s, steps, t) && StepEnabled(t, WriteDirectory(which), now)
    ensures Leads(s, more, u) && |more| == |steps| + 1 && ClockPassed(u, now + 1)
    ensures WritesFindLiveRows(s, more) <==> WritesFindLiveRows(s, steps) && Live(t.table, t.pending[which].fetched.id)
    ensures
      var p, x := t.pending[which], t.pending[which].fetched.id;
      && x in t.table && u.table == t.table[x := Written(p, t.table[x], now)]
      && u.written == t.written + [Event(UpdateEvent, Written(p, p.fetched, now))]
      && u.unsent == t.unsent + [[|t.written|]] && u.sent == t.sent && u.pending == Without(t.pending, which)
      && Written(p, p.fetched, now).id == x && Written(p, p.fetched, now).deletedAt.None?
      && (Live(u.table, x) <==> Live(t.table, x))
  {
    assert Remembers(t.table, t.pending[which]);
    assert Serials(|t.written|, 1) == [|t.written|];
    more, u := WritesSnoc(s, steps, t, WriteDirectory(which), now);
  }

  lemma SendMore(s: SystemState, steps: seq<Timed>, t: SystemState, which: nat, now: Time)
    returns (more: seq<Timed>, u: SystemState)
    requires Consistent(s) && Leads(s, steps, t) && StepEnabled(t, Send(which), now)
    ensures Leads(s, more, u) && |more| == |steps| + 1 && ClockPassed(u, now + 1)
    ensures WritesFindLiveRows(s, more) <==> WritesFindLiveRows(s, steps)
    ensures t.unsent[which][0] < |t.written| && Log(u) == Log(t) + [t.written[t.unsent[which][0]]]
    ensures |u.sent| == |t.sent| + 1
    ensures u.table == t.table && u.written == t.written && u.unsent == t.unsent[which := t.unsent[which][1..]]
  {
    more, u := WritesSnoc(s, steps, t, Send(which), now);
  }

  /** An update has fetched `x` and lost it to a delete. */
  lemma LostAfterFetch(s: SystemState, x: DirectoryID, now: Time) returns (steps: seq<Timed>, t: SystemState)
    requires Consistent(s) && Live(s.table, x) && s.table[x].parent.Some? && ClockPassed(s, now)
    ensures Leads(s, steps, t) && |steps| == 2 && ClockPassed(t, now + 2) && x in t.table && !Live(t.table, x)
    ensures |t.unsent| == |s.unsent| + 1 && |t.pending| == |s.pending| + 1
    ensures t.pending[|s.pending|].PendingUpdate? && t.pending[|s.pending|].fetched.id == x
  {
    var fetched;
    steps, fetched := FetchMore(s, [], s, x, None, now);
    assert fetched.table == s.table && fetched.unsent == s.unsent;
    assert fetched.pending[|s.pending|] == PendingUpdate(s.table[x], None, None);
    steps, t := DeletedMeanwhile(s, steps, fetched, x, now + 1);
  }

  /** Then it has written into the deleted row. */
  lemma WrittenTooLate(s: SystemState, x: DirectoryID, now: Time) returns (steps: seq<Timed>, t: SystemState, e: Event)
    requires Consistent(s) && Live(s.table, x) && s.table[x].parent.Some? && ClockPassed(s, now)
    ensures Leads(s, steps, t) && |steps| == 3 && ClockPassed(t, now + 3) && x in t.table && !Live(t.table, x)
    ensures |t.unsent| == |s.unsent| + 2 && |t.written| > 0
    ensures t.unsent[|s.unsent| + 1] == [|t.written| - 1] && t.written[|t.written| - 1] == e
    ensures e.directory.id == x && e.directory.deletedAt.None?
  {
    var lost;
    steps, lost := LostAfterFetch(s, x, now);
    var p := lost.pending[|s.pending|];
    e := Event(UpdateEvent, Written(p, p.fetched, now + 2));
    steps, t := WriteMore(s, steps, lost, |s.pending|, now + 2);
  }

  /**
   In any consistent state an update can fetch a directory, lose it to a delete, and publish it last as if it were
   live.
   */
  lemma UpdateDeleteRace(s: SystemState, x: DirectoryID, now: Time) returns (steps: seq<Timed>, t: SystemState)
    requires Consistent(s) && Live(s.table, x) && s.table[x].parent.Some? && ClockPassed(s, now)
    ensures Leads(s, steps, t) && |steps| == 4
    ensures x in t.table && !Live(t.table, x)
    ensures |t.sent| > 0 && LastAbout(Log(t), x, |t.sent| - 1) && Log(t)[|t.sent| - 1].directory.deletedAt.None?
  {
    var e: Event;
    steps, t, e := WrittenTooLate(s, x, now);
    steps, t := SendMore(s, steps, t, |s.unsent| + 1, now + 3);
  }

  /** Two updates that give `x` different names have been fetched, and then written, the first of them first. */
  lemma TwoWrites(s: SystemState, x: DirectoryID, now: Time) returns (steps: seq<Timed>, t: SystemState)
    requires Consistent(s) && Live(s.table, x) && ClockPassed(s, now)
    ensures Leads(s, steps, t) && |steps| == 4 && ClockPassed(t, now + 4) && WritesFindLiveRows(s, steps)
    ensures x in t.table && t.table[x].name == "b"
    ensures |t.written| == |s.written| + 2 && t.unsent == (s.unsent + [[|s.written|]]) + [[|s.written| + 1]]
    ensures t.written[|s.written|].directory.id == x && t.written[|s.written|].directory.name == "a"
  {
    var n := |s.pending|;
    steps, t := FetchMore(s, [], s, x, Some("a"), now);
    steps, t := FetchMore(s, steps, t, x, Some("b"), now + 1);
    TwoPending(s.pending, t.pending[n], t.pending[n + 1]);
    steps, t := WriteMore(s, steps, t, n, now + 2);
    steps, t := WriteMore(s, steps, t, n, now + 3);
  }

  lemma TwoPending(pending: seq<Pending>, p: Pending, q: Pending)
    ensures Without(pending + [p] + [q], |pending|) == pending + [q]
  {
  }

  /**
   Without any delete, and with every notification delivered: two updates of one live directory are written in one
   order and published in the other, and the log ends with a name that the table does not have.
   */
  lemma TwoUpdatesRace(s: SystemState, x: DirectoryID, now: Time) returns (steps: seq<Timed>, t: SystemState)
    requires Consistent(s) && Live(s.table, x) && ClockPassed(s, now)
    ensures Leads(s, steps, t) && |steps| == 6 && WritesFindLiveRows(s, steps) && t.unsent == s.unsent + [[]] + [[]]
    ensures x in t.table && t.table[x].name == "b"
    ensures |t.sent| > 0 && LastAbout(Log(t), x, |t.sent| - 1) && Log(t)[|t.sent| - 1].directory.name == "a"
    ensures Fold(map[], Log(t)) != t.table
  {
    var n, m := |s.unsent|, |s.written|;
    steps, t := TwoWrites(s, x, now);
    TwoQueues(s.unsent, m, m + 1);
    steps, t := SendMore(s, steps, t, n + 1, now + 4);
    steps, t := SendMore(s, steps, t, n, now + 5);
    EndsWrong(t, x, "a", "b");
  }

  lemma TwoQueues(unsent: seq<seq<nat>>, i: nat, j: nat)
    ensures
      var before, n := unsent + [[i]] + [[j]], |unsent|;
      && before[n] == [i] && before[n + 1] == [j]
      && before[n + 1 := before[n + 1][1..]] == unsent + [[i]] + [[]]
      && (unsent + [[i]] + [[]])[n := (unsent + [[i]] + [[]])[n][1..]] == unsent + [[]] + [[]]
  {
    var before, n := unsent + [[i]] + [[j]], |unsent|;
    assert before[n + 1][1..] == [] && before[n][1..] == [];
    assert before[n + 1 := []] == unsent + [[i]] + [[]];
    assert (unsent + [[i]] + [[]])[n := []] == unsent + [[]] + [[]];
  }

  lemma EndsWrong(t: SystemState, x: DirectoryID, told: string, stored: string)
    requires SentWritten(t) && |t.sent| > 0 && x in t.table && t.table[x].name == stored && told != stored
    requires Log(t)[|t.sent| - 1].directory.id == x && Log(t)[|t.sent| - 1].directory.name == told
    ensures LastAbout(Log(t), x, |t.sent| - 1) && Fold(map[], Log(t)) != t.table
  {
    FoldIsLast(map[], Log(t), x, |t.sent| - 1);
  }
}
