// The process-wide toast bus: a set of subscribed handlers, `subscribe`
// (whose returned closure unsubscribes) and `pushToast`, which calls every
// handler with the same event and swallows whatever a handler throws.
//
// Handlers are identified by reference, as in a JavaScript `Set`; we name
// them by number. What a handler does is outside the bus: the model records
// each call in a delivery log, and which calls throw is a parameter. A call
// that throws is caught and logged (`console.error`) in a second log.

module ToastBus {
  import opened Basics

  type HandlerId = nat

  /** The object `{ message, variant, timeout }` handed to each handler. */
  datatype ToastEvent = ToastEvent(message: string, variant: Variant, timeout: int)

  /** One call of a handler with an event. */
  datatype Delivery = Delivery(handler: HandlerId, event: ToastEvent)

  const DefaultVariant: Variant := Success
  const DefaultTimeout: int := 3200

  /** The event `pushToast(message, variant, timeout)` builds: an omitted
      argument takes the default of the parameter list. */
  function MakeEvent(message: string, variant: Option<Variant>, timeout: Option<int>): ToastEvent {
    ToastEvent(message, variant.GetOr(DefaultVariant), timeout.GetOr(DefaultTimeout))
  }

  predicate NoDup(hs: seq<HandlerId>) {
    forall i, j :: 0 <= i < j < |hs| ==> hs[i] != hs[j]
  }

  // ---------------------------------------------------------------------
  // The handler set, kept in insertion order (the iteration order of a Set)

  /** `handlers.add(h)`: a new handler goes last, a present one stays put. */
  function Add(hs: seq<HandlerId>, h: HandlerId): (r: seq<HandlerId>)
    ensures NoDup(hs) ==> NoDup(r)
    ensures forall x :: x in r <==> x in hs || x == h
    ensures hs <= r && |r| <= |hs| + 1
  {
    if h in hs then hs else hs + [h]
  }

  /** `handlers.delete(h)` */
  function Remove(hs: seq<HandlerId>, h: HandlerId): (r: seq<HandlerId>)
    ensures h !in r
    ensures forall x :: x != h ==> (x in r <==> x in hs)
    ensures h !in hs ==> r == hs
    ensures NoDup(hs) ==> NoDup(r)
  {
    if hs == [] then []
    else if hs[0] == h then Remove(hs[1..], h)
    else
      var t := Remove(hs[1..], h);
      assert NoDup(hs) ==> NoDup([hs[0]] + t) by {
        if NoDup(hs) {
          assert NoDup(hs[1..]) by {
            forall i, j | 0 <= i < j < |hs| - 1 ensures hs[1..][i] != hs[1..][j] {
              assert hs[1..][i] == hs[i + 1] && hs[1..][j] == hs[j + 1];
            }
          }
          assert hs[0] !in t;
        }
      }
      [hs[0]] + t
  }

  /** Deleting a registered handler cuts exactly its one entry out of the
      set and leaves every other handler in its place. */
  lemma {:induction false} RemoveCutsOne(hs: seq<HandlerId>, h: HandlerId) returns (k: nat)
    requires NoDup(hs) && h in hs
    ensures k < |hs| && hs[k] == h
    ensures Remove(hs, h) == hs[..k] + hs[k + 1..]
  {
    if hs[0] == h {
      k := 0;
      assert h !in hs[1..];
    } else {
      assert NoDup(hs[1..]) by {
        forall i, j | 0 <= i < j < |hs[1..]| ensures hs[1..][i] != hs[1..][j] {
          assert hs[1..][i] == hs[i + 1] && hs[1..][j] == hs[j + 1];
        }
      }
      var k' := RemoveCutsOne(hs[1..], h);
      k := k' + 1;
      assert hs[1..][..k'] + hs[1..][k' + 1..] == hs[1..k] + hs[k + 1..];
      assert [hs[0]] + hs[1..k] == hs[..k];
    }
  }

  // ---------------------------------------------------------------------
  // One publish

  /** The calls `handlers.forEach(h => h(e))` makes, in iteration order. */
  function Broadcast(hs: seq<HandlerId>, e: ToastEvent): seq<Delivery> {
    if hs == [] then [] else Broadcast(hs[..|hs| - 1], e) + [Delivery(hs[|hs| - 1], e)]
  }

  /** The calls among those that throw, each caught and logged. */
  function Failures(hs: seq<HandlerId>, e: ToastEvent, throws: (HandlerId, ToastEvent) -> bool): seq<Delivery> {
    if hs == [] then []
    else Failures(hs[..|hs| - 1], e, throws)
         + (if throws(hs[|hs| - 1], e) then [Delivery(hs[|hs| - 1], e)] else [])
  }

  /** Every registered handler is called once, in insertion order, with the
      same event. */
  lemma {:induction false} BroadcastInOrder(hs: seq<HandlerId>, e: ToastEvent)
    ensures |Broadcast(hs, e)| == |hs|
    ensures forall i :: 0 <= i < |hs| ==> Broadcast(hs, e)[i] == Delivery(hs[i], e)
  {
    if hs != [] {
      BroadcastInOrder(hs[..|hs| - 1], e);
    }
  }

  /** The events a log hands to handler `h`, in order. */
  function Received(ds: seq<Delivery>, h: HandlerId): seq<ToastEvent> {
    if ds == [] then []
    else Received(ds[..|ds| - 1], h)
         + (if ds[|ds| - 1].handler == h then [ds[|ds| - 1].event] else [])
  }

  lemma {:induction false} ReceivedAppend(a: seq<Delivery>, b: seq<Delivery>, h: HandlerId)
    ensures Received(a + b, h) == Received(a, h) + Received(b, h)
  {
    if b == [] {
      assert a + b == a;
    } else {
      assert (a + b)[..|a + b| - 1] == a + b[..|b| - 1];
      assert (a + b)[|a + b| - 1] == b[|b| - 1];
      ReceivedAppend(a, b[..|b| - 1], h);
      var last := if b[|b| - 1].handler == h then [b[|b| - 1].event] else [];
      calc {
        Received(a + b, h);
        Received(a + b[..|b| - 1], h) + last;
        Received(a, h) + Received(b[..|b| - 1], h) + last;
        Received(a, h) + (Received(b[..|b| - 1], h) + last);
      }
    }
  }

  /** With set semantics, a publish reaches a registered handler exactly
      once and an unregistered one not at all. */
  lemma {:induction false} BroadcastOncePerHandler(hs: seq<HandlerId>, e: ToastEvent, h: HandlerId)
    requires NoDup(hs)
    ensures Received(Broadcast(hs, e), h) == if h in hs then [e] else []
  {
    if hs != [] {
      var init := hs[..|hs| - 1];
      assert hs == init + [hs[|hs| - 1]];
      assert NoDup(init) by {
        forall i, j | 0 <= i < j < |init| ensures init[i] != init[j] {
          assert init[i] == hs[i] && init[j] == hs[j];
        }
      }
      BroadcastOncePerHandler(init, e, h);
      ReceivedAppend(Broadcast(init, e), [Delivery(hs[|hs| - 1], e)], h);
      assert Received([Delivery(hs[|hs| - 1], e)], h)
        == if hs[|hs| - 1] == h then [e] else [];
      if hs[|hs| - 1] == h {
        assert h !in init;
      }
    }
  }

  /** Subscribing the same handler twice still yields one call per publish. */
  lemma SubscribeTwiceDeliversOnce(hs: seq<HandlerId>, h: HandlerId, e: ToastEvent)
    requires NoDup(hs)
    ensures Received(Broadcast(Add(Add(hs, h), h), e), h) == [e]
  {
    BroadcastOncePerHandler(Add(Add(hs, h), h), e, h);
  }

  // ---------------------------------------------------------------------
  // The bus over time

  datatype BusState = BusState(handlers: seq<HandlerId>, delivered: seq<Delivery>, logged: seq<Delivery>)

  /** The three things callers do with the bus: `subscribe(h)`, calling the
      closure it returned, and `pushToast(message, variant?, timeout?)`. */
  datatype Op =
    | Sub(handler: HandlerId)
    | Unsub(handler: HandlerId)
    | Pub(message: string, variant: Option<Variant>, timeout: Option<int>)

  function Step(s: BusState, op: Op, throws: (HandlerId, ToastEvent) -> bool): BusState {
    match op
    case Sub(h) => s.(handlers := Add(s.handlers, h))
    case Unsub(h) => s.(handlers := Remove(s.handlers, h))
    case Pub(m, v, t) =>
      var e := MakeEvent(m, v, t);
      s.(delivered := s.delivered + Broadcast(s.handlers, e),
         logged := s.logged + Failures(s.handlers, e, throws))
  }

  function Run(s: BusState, ops: seq<Op>, throws: (HandlerId, ToastEvent) -> bool): BusState
    decreases |ops|
  {
    if ops == [] then s else Run(Step(s, ops[0], throws), ops[1..], throws)
  }

  /** Publishing to an empty bus changes nothing. */
  lemma PublishToNobody(s: BusState, m: string, v: Option<Variant>, t: Option<int>, throws: (HandlerId, ToastEvent) -> bool)
    requires s.handlers == []
    ensures Step(s, Pub(m, v, t), throws) == s
  {
    assert Broadcast([], MakeEvent(m, v, t)) == [];
    assert s.delivered + [] == s.delivered && s.logged + [] == s.logged;
  }

  /** Calling an unsubscribe closure a second time is a no-op. */
  lemma UnsubscribeTwice(s: BusState, h: HandlerId, throws: (HandlerId, ToastEvent) -> bool)
    ensures Step(Step(s, Unsub(h), throws), Unsub(h), throws) == Step(s, Unsub(h), throws)
    ensures h !in Step(s, Unsub(h), throws).handlers
  {
  }

  /** The events a handler should receive over `ops`: the ones published
      while it is registered (`on` says whether it is to begin with). */
  function WhileSubscribed(ops: seq<Op>, h: HandlerId, on: bool): seq<ToastEvent>
    decreases |ops|
  {
    if ops == [] then []
    else match ops[0]
      case Sub(x) => WhileSubscribed(ops[1..], h, on || x == h)
      case Unsub(x) => WhileSubscribed(ops[1..], h, on && x != h)
      case Pub(m, v, t) =>
        (if on then [MakeEvent(m, v, t)] else []) + WhileSubscribed(ops[1..], h, on)
  }

  /** No replay and no delivery after unsubscribing: over any run, a handler
      receives exactly the events published while it was subscribed, each
      once, in publish order, whatever the handlers throw. */
  lemma {:induction false} ReceivesOnlyWhileSubscribed(s: BusState, ops: seq<Op>, h: HandlerId, throws: (HandlerId, ToastEvent) -> bool)
    requires NoDup(s.handlers)
    ensures NoDup(Run(s, ops, throws).handlers)
    ensures Received(Run(s, ops, throws).delivered, h)
         == Received(s.delivered, h) + WhileSubscribed(ops, h, h in s.handlers)
    decreases |ops|
  {
    if ops != [] {
      var s' := Step(s, ops[0], throws);
      match ops[0] {
      case Sub(x) => {
        assert s'.handlers == Add(s.handlers, x) && s'.delivered == s.delivered;
      }
      case Unsub(x) => {
        assert s'.handlers == Remove(s.handlers, x) && s'.delivered == s.delivered;
        assert (h in s'.handlers) == (h in s.handlers && x != h);
      }
      case Pub(m, v, t) => {
        var e := MakeEvent(m, v, t);
        ReceivedAppend(s.delivered, Broadcast(s.handlers, e), h);
        BroadcastOncePerHandler(s.handlers, e, h);
      }
      }
      ReceivesOnlyWhileSubscribed(s', ops[1..], h, throws);
    }
  }

  /** A throwing handler changes only the error log: the handler set and
      every delivery are the same as if no handler had thrown. */
  lemma {:induction false} FailuresAreIsolated(s: BusState, ops: seq<Op>, t1: (HandlerId, ToastEvent) -> bool, t2: (HandlerId, ToastEvent) -> bool)
    ensures Run(s, ops, t1).handlers == Run(s, ops, t2).handlers
    ensures Run(s, ops, t1).delivered == Run(s, ops, t2).delivered
    decreases |ops|
  {
    if ops != [] {
      var s1 := Step(s, ops[0], t1);
      var s2 := Step(s, ops[0], t2);
      assert s1.(logged := s2.logged) == s2;
      FailuresAreIsolated(s1, ops[1..], t1, t2);
      RunIgnoresLog(s1, s2.logged, ops[1..], t2);
    }
  }

  /** The log a run starts with does not influence anything else it does. */
  lemma {:induction false} RunIgnoresLog(s: BusState, log: seq<Delivery>, ops: seq<Op>, throws: (HandlerId, ToastEvent) -> bool)
    ensures Run(s, ops, throws).handlers == Run(s.(logged := log), ops, throws).handlers
    ensures Run(s, ops, throws).delivered == Run(s.(logged := log), ops, throws).delivered
    decreases |ops|
  {
    if ops != [] {
      var s' := Step(s, ops[0], throws);
      var l' := Step(s.(logged := log), ops[0], throws).logged;
      assert Step(s.(logged := log), ops[0], throws) == s'.(logged := l');
      RunIgnoresLog(s', l', ops[1..], throws);
    }
  }

  // ---------------------------------------------------------------------
  // The bus object

  class Bus {
    var handlers: seq<HandlerId>
    var delivered: seq<Delivery>
    var logged: seq<Delivery>

    ghost predicate Valid()
      reads this
    {
      NoDup(handlers)
    }

    function State(): BusState
      reads this
    {
      BusState(handlers, delivered, logged)
    }

    /** The module starts with an empty handler set. */
    constructor ()
      ensures Valid() && State() == BusState([], [], [])
    {
      handlers, delivered, logged := [], [], [];
    }

    /** `subscribe(h)`; the closure it returns is `Unsubscribe(h)`. */
    method Subscribe(h: HandlerId)
      requires Valid()
      modifies this
      ensures Valid() && State() == old(State()).(handlers := Add(old(handlers), h))
      ensures h in handlers
    {
      if h !in handlers {
        handlers := handlers + [h];
      }
    }

    /** The unsubscribe closure: `handlers.delete(h)`, which reports whether
        `h` was registered. */
    method Unsubscribe(h: HandlerId) returns (removed: bool)
      requires Valid()
      modifies this
      ensures Valid() && State() == old(State()).(handlers := Remove(old(handlers), h))
      ensures removed == (h in old(handlers))
    {
      removed := h in handlers;
      handlers := Remove(handlers, h);
    }

    /** `pushToast(message, variant, timeout)`: call each handler in turn;
        a handler that throws is logged and the loop goes on, and nothing
        reaches the caller. */
    method PushToast(message: string, variant: Option<Variant>, timeout: Option<int>,
                     throws: (HandlerId, ToastEvent) -> bool)
      requires Valid()
      modifies this
      ensures Valid() && State() == Step(old(State()), Pub(message, variant, timeout), throws)
    {
      var e := MakeEvent(message, variant, timeout);
      var i := 0;
      while i < |handlers|
        invariant 0 <= i <= |handlers| && handlers == old(handlers)
        invariant delivered == old(delivered) + Broadcast(handlers[..i], e)
        invariant logged == old(logged) + Failures(handlers[..i], e, throws)
      {
        var h := handlers[i];
        assert handlers[..i + 1][..i] == handlers[..i];
        delivered := delivered + [Delivery(h, e)];
        if throws(h, e) {
          logged := logged + [Delivery(h, e)];
        }
        i := i + 1;
      }
      assert handlers[..i] == handlers;
    }
  }
}
