/**
 The wrappers around a notification, such as the retrier: functions of a handler over some world state. They
 are why `StoreNotifier` may take a notification as delivered or failed as a whole.
 */
module NotifyWrappers {
  import opened Wrappers
  import opened ServerRuns

  /** A handler changes the world and succeeds or fails. */
  type Handler<!W> = W -> (W, bool)

  /** A wrapper decides how, and how often, to run a handler. */
  type Wrapper<!W> = (Handler<W>, W) -> (W, bool)

  function Wrapped<W>(w: Wrapper<W>, h: Handler<W>): Handler<W> {
    world => w(h, world)
  }

  /** `outer` around `inner`. */
  function Composed<W>(outer: Wrapper<W>, inner: Wrapper<W>): Wrapper<W> {
    (h: Handler<W>, world: W) => outer(Wrapped(inner, h), world)
  }

  /** The handler `h` inside all of `ws`, the first of them outermost. */
  function Nest<W>(ws: seq<Wrapper<W>>, h: Handler<W>): Handler<W> {
    if ws == [] then h else Wrapped(ws[0], Nest(ws[1..], h))
  }

  lemma {:induction false} NestSnoc<W>(ws: seq<Wrapper<W>>, w: Wrapper<W>, h: Handler<W>)
    ensures Nest(ws + [w], h) == Nest(ws, Wrapped(w, h))
  {
    if ws != [] {
      assert (ws + [w])[0] == ws[0] && (ws + [w])[1..] == ws[1..] + [w];
      NestSnoc(ws[1..], w, h);
    }
  }

  /** Runs `h` until it succeeds, at most `tries` times and at least once. */
  function Retried<W>(h: Handler<W>, tries: nat, world: W): (W, bool)
    decreases tries
  {
    var r := h(world);
    if r.1 || tries <= 1 then r else Retried(h, tries - 1, r.0)
  }

  /** The retrying wrapper, when its backoff leaves room for `tries` attempts. */
  function Retrier<W>(tries: nat): Wrapper<W> {
    (h: Handler<W>, world: W) => Retried(h, tries, world)
  }

  function Retriers<W>(tries: seq<nat>): seq<Wrapper<W>> {
    if tries == [] then [] else [Retrier(tries[0])] + Retriers(tries[1..])
  }

  /** What a broker has stored, and how often it has been asked. */
  datatype Broker = Broker(log: seq<Event>, attempts: nat)

  /** An attempt stores the event and succeeds, or does neither, or stores it although the attempt returns an error. */
  datatype Outcome = Acknowledged | Refused | Unacknowledged

  /** One attempt to publish `e`; the k-th attempt of all has the outcome `outcomes(k)`. */
  function Publish(outcomes: nat -> Outcome, e: Event): Handler<Broker> {
    (b: Broker) =>
      (Broker(if outcomes(b.attempts).Refused? then b.log else b.log + [e], b.attempts + 1),
       outcomes(b.attempts).Acknowledged?)
  }

  /** Success means that `e` was published once, failure that it was not. */
  ghost predicate Whole(h: Handler<Broker>, e: Event) {
    forall b: Broker :: h(b).0.log == if h(b).1 then b.log + [e] else b.log
  }

  lemma {:induction false} RetriedIsWhole(h: Handler<Broker>, e: Event, tries: nat, b: Broker)
    requires Whole(h, e)
    ensures Retried(h, tries, b).0.log == if Retried(h, tries, b).1 then b.log + [e] else b.log
    decreases tries
  {
    if !h(b).1 && tries > 1 {
      RetriedIsWhole(h, e, tries - 1, h(b).0);
    }
  }

  /** However many retriers are nested, a notification is delivered once or not at all if its attempts are. */
  lemma {:induction false} NestedRetriersAreWhole(tries: seq<nat>, h: Handler<Broker>, e: Event)
    requires Whole(h, e)
    ensures Whole(Nest(Retriers(tries), h), e)
    decreases |tries|
  {
    if tries != [] {
      NestedRetriersAreWhole(tries[1..], h, e);
      var inner := Nest(Retriers(tries[1..]), h);
      assert Retriers<Broker>(tries)[1..] == Retriers(tries[1..]);
      forall b: Broker
        ensures
          var r := Nest(Retriers(tries), h)(b);
          r.0.log == if r.1 then b.log + [e] else b.log
      {
        RetriedIsWhole(inner, e, tries[0], b);
      }
    }
  }

  function Copies(e: Event, n: nat): seq<Event> {
    seq(n, i => e)
  }

  /** Asked in state `b`, `h` publishes `n` copies of `e`: one too many after an unacknowledged first attempt. */
  ghost predicate PublishesCopies(h: Handler<Broker>, outcomes: nat -> Outcome, e: Event, b: Broker, n: nat) {
    && h(b).0.log == b.log + Copies(e, n)
    && n >= (if h(b).1 then 1 else 0) + (if outcomes(b.attempts).Unacknowledged? then 1 else 0)
  }

  ghost predicate PublishesAt(h: Handler<Broker>, outcomes: nat -> Outcome, e: Event, b: Broker) {
    exists n: nat :: PublishesCopies(h, outcomes, e, b, n)
  }

  ghost predicate PublishesSome(h: Handler<Broker>, outcomes: nat -> Outcome, e: Event) {
    forall b: Broker :: PublishesAt(h, outcomes, e, b)
  }

  lemma PublishPublishes(outcomes: nat -> Outcome, e: Event)
    ensures PublishesSome(Publish(outcomes, e), outcomes, e)
  {
    forall b: Broker
      ensures PublishesAt(Publish(outcomes, e), outcomes, e, b)
    {
      assert Copies(e, 1) == [e] && Copies(e, 0) == [];
      assert PublishesCopies(Publish(outcomes, e), outcomes, e, b, if outcomes(b.attempts).Refused? then 0 else 1);
    }
  }

  lemma {:induction false} RetriedPublishes(h: Handler<Broker>, outcomes: nat -> Outcome, e: Event,
                                             tries: nat, b: Broker)
    returns (n: nat)
    requires PublishesSome(h, outcomes, e)
    ensures PublishesCopies(Wrapped(Retrier(tries), h), outcomes, e, b, n)
    decreases tries
  {
    assert PublishesAt(h, outcomes, e, b);
    n :| PublishesCopies(h, outcomes, e, b, n);
    if !h(b).1 && tries > 1 {
      var m := RetriedPublishes(h, outcomes, e, tries - 1, h(b).0);
      assert Copies(e, n + m) == Copies(e, n) + Copies(e, m);
      n := n + m;
    }
  }

  lemma {:induction false} NestPublishes(tries: seq<nat>, outcomes: nat -> Outcome, e: Event)
    ensures PublishesSome(Nest(Retriers(tries), Publish(outcomes, e)), outcomes, e)
    decreases |tries|
  {
    PublishPublishes(outcomes, e);
    if tries != [] {
      NestPublishes(tries[1..], outcomes, e);
      var inner := Nest(Retriers(tries[1..]), Publish(outcomes, e));
      assert Retriers<Broker>(tries)[1..] == Retriers(tries[1..]);
      forall b: Broker
        ensures PublishesAt(Nest(Retriers(tries), Publish(outcomes, e)), outcomes, e, b)
      {
        var n := RetriedPublishes(inner, outcomes, e, tries[0], b);
        assert PublishesCopies(Nest(Retriers(tries), Publish(outcomes, e)), outcomes, e, b, n);
      }
    }
  }

  lemma WholeNeedsAcknowledgement(h: Handler<Broker>, outcomes: nat -> Outcome, e: Event, k: nat)
    requires PublishesSome(h, outcomes, e) && Whole(h, e)
    ensures !outcomes(k).Unacknowledged?
  {
    var b := Broker([], k);
    assert PublishesAt(h, outcomes, e, b);
    var n: nat :| PublishesCopies(h, outcomes, e, b, n);
    assert h(b).0.log == if h(b).1 then b.log + [e] else b.log;
    assert |h(b).0.log| == n;
  }

  /**
   However many retriers are nested: notifications succeed or fail as a whole exactly if the broker never stores an
   event without acknowledging it.
   */
  lemma NotificationIsWhole(tries: seq<nat>, outcomes: nat -> Outcome, e: Event)
    ensures Whole(Nest(Retriers(tries), Publish(outcomes, e)), e) <==> forall k: nat :: !outcomes(k).Unacknowledged?
  {
    var h := Nest(Retriers(tries), Publish(outcomes, e));
    if forall k: nat :: !outcomes(k).Unacknowledged? {
      NestedRetriersAreWhole(tries, Publish(outcomes, e), e);
    }
    if Whole(h, e) {
      NestPublishes(tries, outcomes, e);
      forall k: nat
        ensures !outcomes(k).Unacknowledged?
      {
        WholeNeedsAcknowledgement(h, outcomes, e, k);
      }
    }
  }

  /** How many of the attempts `from` to `to` stored their event. */
  function Stores(outcomes: nat -> Outcome, from: nat, to: nat): nat
    decreases to - from
  {
    if from >= to then 0 else (if outcomes(from).Refused? then 0 else 1) + Stores(outcomes, from + 1, to)
  }

  /**
   In general a retried notification is delivered exactly when one of its attempts is acknowledged, and it is
   published as often as its attempts were stored: lost acknowledgements cost duplicates.
   */
  lemma {:induction false} RetryDelivers(outcomes: nat -> Outcome, e: Event, tries: nat, b: Broker)
    requires tries > 0
    ensures
      var r := Retried(Publish(outcomes, e), tries, b);
      && (r.1 <==> exists k | b.attempts <= k < b.attempts + tries :: outcomes(k).Acknowledged?)
      && b.attempts < r.0.attempts <= b.attempts + tries
      && r.0.log == b.log + Copies(e, Stores(outcomes, b.attempts, r.0.attempts))
    decreases tries
  {
    var once := Publish(outcomes, e)(b);
    if once.1 || tries == 1 {
      assert Stores(outcomes, b.attempts + 1, b.attempts + 1) == 0;
      assert Copies(e, 1) == [e] && Copies(e, 0) == [];
    } else {
      RetryDelivers(outcomes, e, tries - 1, once.0);
      var n := Stores(outcomes, b.attempts + 1, Retried(Publish(outcomes, e), tries - 1, once.0).0.attempts);
      assert Copies(e, n + 1) == [e] + Copies(e, n);
    }
  }

  class WrapperChain<W(!new)> {
    var notifyWrapper: Option<Wrapper<W>>

    constructor ()
      ensures Nests([])
    {
      notifyWrapper := None;
    }

    /** Running a notification runs it inside `ws`. Without any wrapper there is nothing to run it. */
    ghost predicate Nests(ws: seq<Wrapper<W>>)
      reads this
    {
      if ws == [] then notifyWrapper.None?
      else notifyWrapper.Some? && forall h: Handler<W>, world: W :: notifyWrapper.value(h, world) == Nest(ws, h)(world)
    }

    /** A wrapper added later runs inside those added before. */
    method AddWrapper(w: Wrapper<W>, ghost ws: seq<Wrapper<W>>)
      requires Nests(ws)
      modifies this
      ensures Nests(ws + [w])
    {
      forall h: Handler<W>
        ensures Nest(ws + [w], h) == Nest(ws, Wrapped(w, h))
      {
        NestSnoc(ws, w, h);
      }
      if notifyWrapper.None? {
        notifyWrapper := Some(w);
        return;
      }
      var wrap := notifyWrapper.value;
      notifyWrapper := Some(Composed(wrap, w));
    }

    /** Runs a notification. Without any wrapper the call is of a nil function. */
    method Notify(h: Handler<W>, world: W, ghost ws: seq<Wrapper<W>>) returns (r: Option<(W, bool)>)
      requires Nests(ws)
      ensures r.None? <==> ws == []
      ensures r.Some? ==> r.value == Nest(ws, h)(world)
    {
      if notifyWrapper.None? {
        return None;
      }
      r := Some(notifyWrapper.value(h, world));
    }
  }
}
