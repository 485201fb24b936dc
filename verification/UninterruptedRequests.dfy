/** Requests whose pieces run without interruption are the atomic requests of the server. */
module UninterruptedRequests {
  import opened Wrappers
  import opened Directories
  import opened Lifecycle
  import opened Ordering
  import opened ServerRuns
  import opened Interleaving

  /** The store call and the notification of a new root. */
  lemma UninterruptedRoot(s: SystemState, id: DirectoryID, name: string, metadata: Metadata, now: Time)
    returns (steps: seq<Timed>, t: SystemState)
    requires Consistent(s) && ClockPassed(s, now) && id !in s.table
    ensures steps == [Timed(InsertRoot(id, name, metadata), now), Timed(Send(|s.unsent|), now + 1)]
    ensures Leads(s, steps, t) && ServedAtOnce(s, Label(CreateRoot(id, name, metadata), now), t)
  {
    steps, t := OneMoreStep(s, [], s, InsertRoot(id, name, metadata), now);
    assert Serials(|s.written|, 1) == [|s.written|];
    steps, t := SendLast(s, steps, t, Event(CreateEvent, NewRow(id, name, metadata, None, now)), now + 1);
  }

  /** A handler sends all it has to send, one event after the other. */
  lemma {:induction false} SendAll(s: SystemState, steps: seq<Timed>, t: SystemState, which: nat, now: Time)
    returns (more: seq<Timed>, u: SystemState)
    requires Consistent(s) && Leads(s, steps, t) && which < |t.unsent| && ClockPassed(t, now)
    ensures Leads(s, more, u) && steps <= more && |more| == |steps| + |t.unsent[which]|
    ensures forall k | |steps| <= k < |more| :: more[k].step == Send(which)
    ensures u == t.(unsent := t.unsent[which := []], sent := t.sent + t.unsent[which])
    decreases |t.unsent[which]|
  {
    if t.unsent[which] == [] {
      more, u := steps, t;
      assert t.unsent[which := []] == t.unsent;
    } else {
      var queue := t.unsent[which];
      more, u := OneMoreStep(s, steps, t, Send(which), now);
      var sent, v := more, u;
      more, u := SendAll(s, sent, v, which, now + 1);
      assert v.unsent[which := []] == t.unsent[which := []];
      assert [queue[0]] + queue[1..] == queue;
      forall k | |steps| <= k < |more|
        ensures more[k].step == Send(which)
      {
        assert k == |steps| ==> more[k] == sent[k];
      }
    }
  }

  /** Sending what has just been written adds it to the log. */
  lemma LogOfSent(s: SystemState, t: SystemState, events: seq<Event>)
    requires SentWritten(s) && SentWritten(t)
    requires t.written == s.written + events && t.sent == s.sent + Serials(|s.written|, |events|)
    ensures Log(t) == Log(s) + events
  {
  }

  /** The store call of a delete and its notifications, one for each affected directory. */
  lemma UninterruptedDelete(s: SystemState, id: DirectoryID, affected: seq<DirectoryID>, now: Time)
    returns (steps: seq<Timed>, t: SystemState)
    requires Consistent(s) && ClockPassed(s, now)
    requires NoDuplicates(affected) && Elements(affected) == DeleteSet(s.table, id)
    ensures |steps| == |affected| + 1 && steps[0] == Timed(MarkSubtree(id, affected), now)
    ensures forall k | 1 <= k < |steps| :: steps[k].step == Send(|s.unsent|)
    ensures Leads(s, steps, t) && ServedAtOnce(s, Label(Delete(id, affected), now), t)
  {
    var events, which := DeleteEvents(s.table, affected, now), |s.unsent|;
    DeleteSetIsLive(s.table, id);
    DeleteEventsAt(s.table, affected, now);
    steps, t := OneMoreStep(s, [], s, MarkSubtree(id, affected), now);
    var marked := t;
    steps, t := SendAll(s, steps, t, which, now + 1);
    LogOfSent(s, t, events);
  }

  /**
   Any request, of a live, deleted or unknown directory: its pieces without interruption are the atomic step, the
   same table, the same events and nothing left over.
   */
  lemma UninterruptedRequest(s: SystemState, l: Label) returns (steps: seq<Timed>, t: SystemState)
    requires Consistent(s) && ClockPassed(s, l.now) && Enabled(s.table, l)
    ensures Leads(s, steps, t) && ServedAtOnce(s, l, t)
  {
    match l.request
    case CreateRoot(id, name, metadata) =>
      steps, t := UninterruptedRoot(s, id, name, metadata, l.now);
    case Create(id, parent, name, metadata) =>
      var p := PendingCreate(parent, name, metadata);
      if Live(s.table, parent) {
        steps, t := UninterruptedCreate(s, id, p, l.now);
      } else {
        steps, t := HiddenParentEndsCreate(s, id, p, l.now);
      }
    case Update(id, newName, newMetadata) =>
      if Live(s.table, id) {
        steps, t := UninterruptedUpdate(s, id, newName, newMetadata, l.now);
      } else {
        steps, t := HiddenDirectoryEndsUpdate(s, id, newName, newMetadata, l.now);
      }
    case Delete(id, affected) =>
      steps, t := UninterruptedDelete(s, id, affected, l.now);
  }
}
