// The dashboard's toast surface: the list of active toasts and the timers
// that drive each one from visible to hiding to removed.
//
// A browser timer is a handle returned by `setTimeout`; `timersRef.current`
// maps a toast id to the handle last stored for it (or null). We keep both:
// `slots` is `timersRef.current`, and `pending` is the set of timers the
// browser still holds, by handle, each with the toast id and the callback it
// will run. `clearTimeout` removes a handle from `pending`; a handle that
// has already fired, or was cleared, never runs. Handles and toast ids come
// from counters (the source uses `Date.now() + Math.random()` for ids).
//
// The pure functions below are the state machine; `ToastPanel` is the
// component's mutable state, whose methods follow them step by step.

module ToastLifecycle {
  import opened Basics
  import ToastBus

  type ToastId = nat
  type Handle = nat

  datatype Toast = Toast(id: ToastId, message: string, variant: Variant, hiding: bool)

  /** The callback of a pending timer: `startHide(id)` (after the
      auto-hide delay or after hover ends) or the final removal. */
  datatype Action = BeginHide | Discard

  datatype Timer = Timer(id: ToastId, action: Action, delay: int)

  /** Length of the exit animation before a hiding toast is removed. */
  const RemoveAfter: int := 320
  /** Auto-hide delay re-armed when the mouse leaves a toast. */
  const ResumeAfter: int := 1800

  datatype Panel = Panel(toasts: seq<Toast>, slots: map<ToastId, Option<Handle>>,
                         pending: map<Handle, Timer>, nextId: nat, nextHandle: nat)

  const Empty: Panel := Panel([], map[], map[], 0, 0)

  predicate HasId(ts: seq<Toast>, id: ToastId) {
    exists i :: 0 <= i < |ts| && ts[i].id == id
  }

  predicate DistinctIds(ts: seq<Toast>) {
    forall i, j :: 0 <= i < j < |ts| ==> ts[i].id != ts[j].id
  }

  /** `timersRef.current[id]` is truthy. */
  predicate Armed(p: Panel, id: ToastId) {
    id in p.slots && p.slots[id].Some?
  }

  predicate NoTimerFor(p: Panel, id: ToastId) {
    forall h :: h in p.pending ==> p.pending[h].id != id
  }

  /** The live timers whose callback concerns toast `id`. */
  function PendingFor(p: Panel, id: ToastId): set<Handle> {
    set h | h in p.pending && p.pending[h].id == id
  }

  /** Every live timer is the one its toast's slot holds, handles and ids
      are below their counters, and no two active toasts share an id. */
  ghost predicate Inv(p: Panel) {
    && (forall h :: h in p.pending ==> h < p.nextHandle)
    && (forall h :: h in p.pending ==> p.pending[h].id in p.slots && p.slots[p.pending[h].id] == Some(h))
    && (forall id :: id in p.slots ==> id < p.nextId)
    && (forall i :: 0 <= i < |p.toasts| ==> p.toasts[i].id < p.nextId)
    && DistinctIds(p.toasts)
  }

  // ---------------------------------------------------------------------
  // List updates

  /** `t.map(x => x.id === id ? { ...x, hiding: true } : x)` */
  function MarkHiding(ts: seq<Toast>, id: ToastId): (r: seq<Toast>)
    ensures |r| == |ts|
    ensures forall i :: 0 <= i < |ts| && ts[i].id == id ==> r[i] == ts[i].(hiding := true)
    ensures forall i :: 0 <= i < |ts| && ts[i].id != id ==> r[i] == ts[i]
    ensures !HasId(ts, id) ==> r == ts
  {
    seq(|ts|, i requires 0 <= i < |ts| => if ts[i].id == id then ts[i].(hiding := true) else ts[i])
  }

  /** `t.filter(x => x.id !== id)` */
  function RemoveId(ts: seq<Toast>, id: ToastId): (r: seq<Toast>)
    ensures !HasId(r, id)
    ensures forall t :: t in r <==> t in ts && t.id != id
    ensures IsSubsequence(r, ts)
    ensures DistinctIds(ts) ==> DistinctIds(r)
    ensures !HasId(ts, id) ==> r == ts
  {
    if ts == [] then []
    else
      var rest := RemoveId(ts[1..], id);
      assert ts == [ts[0]] + ts[1..];
      assert DistinctIds(ts) ==> DistinctIds(ts[1..]) by {
        forall i, j | 0 <= i < j < |ts| - 1 && DistinctIds(ts) ensures ts[1..][i].id != ts[1..][j].id {
          assert ts[1..][i] == ts[i + 1] && ts[1..][j] == ts[j + 1];
        }
      }
      if ts[0].id == id then
        assert HasId(ts[1..], id) ==> HasId(ts, id) by {
          if HasId(ts[1..], id) {
            var k :| 0 <= k < |ts[1..]| && ts[1..][k].id == id;
            assert ts[k + 1].id == id;
          }
        }
        rest
      else
        var r := [ts[0]] + rest;
        assert !HasId(r, id) by {
          forall i | 0 <= i < |r| ensures r[i].id != id {
            if i > 0 { assert r[i] == rest[i - 1]; }
          }
        }
        assert DistinctIds(ts) ==> DistinctIds(r) by {
          if DistinctIds(ts) {
            forall j | 0 < j < |r| ensures r[0].id != r[j].id {
              assert r[j] == rest[j - 1] && rest[j - 1] in ts[1..];
              var k :| 0 <= k < |ts[1..]| && ts[1..][k] == rest[j - 1];
              assert ts[k + 1] == r[j];
            }
          }
        }
        assert !HasId(ts, id) ==> !HasId(ts[1..], id) by {
          if HasId(ts[1..], id) {
            var k :| 0 <= k < |ts[1..]| && ts[1..][k].id == id;
            assert ts[k + 1].id == id;
          }
        }
        r
  }

  /** The filter keeps every copy of a kept toast and drops every copy of
      the others. */
  lemma {:induction false} RemoveIdCounts(ts: seq<Toast>, id: ToastId)
    ensures forall t :: multiset(RemoveId(ts, id))[t] == if t.id != id then multiset(ts)[t] else 0
  {
    if ts != [] {
      RemoveIdCounts(ts[1..], id);
      assert ts == [ts[0]] + ts[1..];
    }
  }

  /** The toast rendered with this id, if any. */
  function Find(ts: seq<Toast>, id: ToastId): (r: Option<Toast>)
    ensures r.Some? <==> HasId(ts, id)
    ensures r.Some? ==> r.value in ts && r.value.id == id
  {
    if ts == [] then None
    else if ts[0].id == id then Some(ts[0])
    else
      var r := Find(ts[1..], id);
      assert HasId(ts, id) ==> HasId(ts[1..], id) by {
        if HasId(ts, id) {
          var k :| 0 <= k < |ts| && ts[k].id == id;
          assert k > 0 && ts[1..][k - 1].id == id;
        }
      }
      assert HasId(ts[1..], id) ==> HasId(ts, id) by {
        if HasId(ts[1..], id) {
          var k :| 0 <= k < |ts[1..]| && ts[1..][k].id == id;
          assert ts[k + 1].id == id;
        }
      }
      r
  }

  // ---------------------------------------------------------------------
  // Timer primitives

  /** `timersRef.current[id] = setTimeout(callback, delay)` */
  function Arm(p: Panel, id: ToastId, action: Action, delay: int): Panel {
    var h := p.nextHandle;
    p.(pending := p.pending[h := Timer(id, action, delay)],
       slots := p.slots[id := Some(h)],
       nextHandle := h + 1)
  }

  /** `if (timersRef.current[id]) { clearTimeout(timersRef.current[id]); timersRef.current[id] = null; }` */
  function Clear(p: Panel, id: ToastId): Panel {
    if Armed(p, id) then
      p.(pending := p.pending - {p.slots[id].value}, slots := p.slots[id := None])
    else p
  }

  // ---------------------------------------------------------------------
  // The component's handlers

  /** `startHide(id)`: mark the toast hiding, cancel whatever timer its slot
      holds, and arm the removal. */
  function StartHide(p: Panel, id: ToastId): Panel {
    Arm(Clear(p.(toasts := MarkHiding(p.toasts, id)), id), id, Discard, RemoveAfter)
  }

  /** `pushToast(message, variant, timeout)`: append a visible toast under a
      fresh id and arm its auto-hide timer. */
  function Push(p: Panel, e: ToastBus.ToastEvent): Panel {
    var id := p.nextId;
    Arm(p.(toasts := p.toasts + [Toast(id, e.message, e.variant, false)], nextId := id + 1),
        id, BeginHide, e.timeout)
  }

  /** `onMouseEnter`: pause, by clearing the toast's timer. */
  function HoverEnter(p: Panel, id: ToastId): Panel {
    Clear(p, id)
  }

  /** `onMouseLeave`: resume with a shorter timer, unless the toast is
      already hiding or still has a timer. Only rendered toasts receive
      mouse events, so an id with no toast leaves everything as it is. */
  function HoverLeave(p: Panel, id: ToastId): Panel {
    match Find(p.toasts, id)
    case None => p
    case Some(t) => if !t.hiding && !Armed(p, id) then Arm(p, id, BeginHide, ResumeAfter) else p
  }

  /** The close button of a rendered toast: `startHide(id)` at once. */
  function Close(p: Panel, id: ToastId): Panel {
    if HasId(p.toasts, id) then StartHide(p, id) else p
  }

  /** The browser runs timer `h`. A handle that is no longer pending (it
      fired already or was cleared) runs nothing. The removal callback
      filters the toast out and nulls its slot. */
  function Elapse(p: Panel, h: Handle): Panel {
    if h !in p.pending then p
    else
      var t := p.pending[h];
      var q := p.(pending := p.pending - {h});
      match t.action
      case BeginHide => StartHide(q, t.id)
      case Discard =>
        var q' := q.(toasts := RemoveId(q.toasts, t.id));
        var live := if Armed(q', t.id) then q'.pending - {q'.slots[t.id].value} else q'.pending;
        q'.(pending := live, slots := q'.slots[t.id := None])
  }

  datatype UiEvent =
    | PushEvent(e: ToastBus.ToastEvent)
    | HoverEnterEvent(id: ToastId)
    | HoverLeaveEvent(id: ToastId)
    | CloseEvent(id: ToastId)
    | TimerFires(h: Handle)

  function Step(p: Panel, ev: UiEvent): Panel {
    match ev
    case PushEvent(e) => Push(p, e)
    case HoverEnterEvent(id) => HoverEnter(p, id)
    case HoverLeaveEvent(id) => HoverLeave(p, id)
    case CloseEvent(id) => Close(p, id)
    case TimerFires(h) => Elapse(p, h)
  }

  function Run(p: Panel, evs: seq<UiEvent>): Panel
    decreases |evs|
  {
    if evs == [] then p else Run(Step(p, evs[0]), evs[1..])
  }

  // ---------------------------------------------------------------------
  // The invariant and what it buys

  lemma EmptyInv()
    ensures Inv(Empty)
  {
  }

  /** Whatever the slot held, clearing leaves no live timer for the id. */
  lemma ClearInv(p: Panel, id: ToastId)
    requires Inv(p)
    ensures Inv(Clear(p, id)) && NoTimerFor(Clear(p, id), id)
    ensures Clear(p, id).toasts == p.toasts && Clear(p, id).nextId == p.nextId
    ensures Clear(p, id).pending.Keys <= p.pending.Keys
    ensures forall h :: h in Clear(p, id).pending ==> Clear(p, id).pending[h] == p.pending[h]
  {
  }

  /** Arming is safe once the id has no live timer. */
  lemma ArmInv(p: Panel, id: ToastId, a: Action, d: int)
    requires Inv(p) && NoTimerFor(p, id) && id < p.nextId
    ensures Inv(Arm(p, id, a, d))
    ensures PendingFor(Arm(p, id, a, d), id) == {p.nextHandle}
  {
    var q := Arm(p, id, a, d);
    forall h | h in q.pending
      ensures q.pending[h].id in q.slots && q.slots[q.pending[h].id] == Some(h)
    {
      if h != p.nextHandle {
        assert q.pending[h] == p.pending[h];
      }
    }
  }

  lemma {:induction false} StartHideInv(p: Panel, id: ToastId)
    requires Inv(p) && id < p.nextId
    ensures Inv(StartHide(p, id))
    ensures PendingFor(StartHide(p, id), id) == {p.nextHandle}
  {
    var m := p.(toasts := MarkHiding(p.toasts, id));
    assert Inv(m);
    ClearInv(m, id);
    ArmInv(Clear(m, id), id, Discard, RemoveAfter);
  }

  lemma PushInv(p: Panel, e: ToastBus.ToastEvent)
    requires Inv(p)
    ensures Inv(Push(p, e))
  {
    var id := p.nextId;
    var q := p.(toasts := p.toasts + [Toast(id, e.message, e.variant, false)], nextId := id + 1);
    assert Inv(q);
    ArmInv(q, id, BeginHide, e.timeout);
  }

  lemma ElapseInv(p: Panel, h: Handle)
    requires Inv(p)
    ensures Inv(Elapse(p, h))
  {
    if h in p.pending {
      var t := p.pending[h];
      var q := p.(pending := p.pending - {h});
      assert Inv(q);
      match t.action
      case BeginHide => StartHideInv(q, t.id);
      case Discard => {}
    }
  }

  lemma StepInv(p: Panel, ev: UiEvent)
    requires Inv(p)
    ensures Inv(Step(p, ev))
  {
    match ev
    case PushEvent(e) => PushInv(p, e);
    case HoverEnterEvent(id) => ClearInv(p, id);
    case HoverLeaveEvent(id) =>
      if Find(p.toasts, id).Some? && !Find(p.toasts, id).value.hiding && !Armed(p, id) {
        var k :| 0 <= k < |p.toasts| && p.toasts[k].id == id;
        ArmInv(p, id, BeginHide, ResumeAfter);
      }
    case CloseEvent(id) =>
      if HasId(p.toasts, id) {
        StartHideInv(p, id);
      }
    case TimerFires(h) => ElapseInv(p, h);
  }

  lemma {:induction false} RunInv(p: Panel, evs: seq<UiEvent>)
    requires Inv(p)
    ensures Inv(Run(p, evs))
    decreases |evs|
  {
    if evs != [] {
      StepInv(p, evs[0]);
      RunInv(Step(p, evs[0]), evs[1..]);
    }
  }

  /** At most one pending timer per toast id, in every reachable state. */
  lemma AtMostOneTimer(p: Panel, id: ToastId)
    requires Inv(p)
    ensures |PendingFor(p, id)| <= 1
  {
    if PendingFor(p, id) != {} {
      var h :| h in PendingFor(p, id);
      assert PendingFor(p, id) == {h};
    }
  }

  /** `startHide` twice in a row leaves exactly one scheduled removal. */
  lemma StartHideTwiceOneRemoval(p: Panel, id: ToastId)
    requires Inv(p) && id < p.nextId
    ensures var q := StartHide(StartHide(p, id), id);
            PendingFor(q, id) == {p.nextHandle + 1} && q.pending[p.nextHandle + 1] == Timer(id, Discard, RemoveAfter)
  {
    StartHideInv(p, id);
    StartHideInv(StartHide(p, id), id);
  }

  /** The removal timer removes exactly the toasts with its id, keeps the
      others in order and leaves the id's slot null and without timers. */
  lemma RemovalFires(p: Panel, h: Handle)
    requires Inv(p) && h in p.pending && p.pending[h].action == Discard
    ensures var id := p.pending[h].id; var q := Elapse(p, h);
            && q.toasts == RemoveId(p.toasts, id)
            && q.slots[id] == None && NoTimerFor(q, id)
            && (forall t :: t in p.toasts && t.id != id ==> t in q.toasts)
  {
  }

  /** Hover-enter pauses without touching `hiding`. */
  lemma HoverEnterPauses(p: Panel, id: ToastId)
    requires Inv(p)
    ensures HoverEnter(p, id).toasts == p.toasts
    ensures NoTimerFor(HoverEnter(p, id), id) && !Armed(HoverEnter(p, id), id)
  {
    ClearInv(p, id);
  }

  /** A hiding toast with no timer: it stays on screen, and stays hiding. */
  ghost predicate Lingering(p: Panel, id: ToastId) {
    (exists i :: 0 <= i < |p.toasts| && p.toasts[i].id == id && p.toasts[i].hiding)
    && NoTimerFor(p, id)
  }

  lemma {:induction false} LingeringStep(p: Panel, id: ToastId, ev: UiEvent)
    requires Inv(p) && Lingering(p, id) && ev != CloseEvent(id)
    ensures Lingering(Step(p, ev), id)
  {
    var k :| 0 <= k < |p.toasts| && p.toasts[k].id == id && p.toasts[k].hiding;
    match ev
    case PushEvent(e) =>
      var q := Push(p, e);
      assert q.toasts[k] == p.toasts[k];
    case HoverEnterEvent(x) =>
    case HoverLeaveEvent(x) =>
      if x == id {
        var t := Find(p.toasts, id).value;
        var j :| 0 <= j < |p.toasts| && p.toasts[j] == t;
        assert j == k;
      }
    case CloseEvent(x) =>
      if HasId(p.toasts, x) {
        assert StartHide(p, x).toasts[k].id == id && StartHide(p, x).toasts[k].hiding;
      }
    case TimerFires(h) =>
      if h in p.pending {
        var t := p.pending[h];
        match t.action
        case BeginHide =>
          assert StartHide(p.(pending := p.pending - {h}), t.id).toasts[k] == p.toasts[k];
        case Discard =>
          assert p.toasts[k] in Elapse(p, h).toasts;
      }
  }

  /** Once a hiding toast has been hovered (its timer cleared), nothing but
      its close button brings it closer to removal: across any events that
      do not close it, it stays on screen. */
  lemma {:induction false} HoveredHidingToastStays(p: Panel, id: ToastId, evs: seq<UiEvent>)
    requires Inv(p) && Lingering(p, id)
    requires forall i :: 0 <= i < |evs| ==> evs[i] != CloseEvent(id)
    ensures HasId(Run(p, evs).toasts, id)
    decreases |evs|
  {
    if evs == [] {
      var k :| 0 <= k < |p.toasts| && p.toasts[k].id == id && p.toasts[k].hiding;
    } else {
      LingeringStep(p, id, evs[0]);
      StepInv(p, evs[0]);
      HoveredHidingToastStays(Step(p, evs[0]), id, evs[1..]);
    }
  }

  /** Toast `t` is on screen with its timer cleared: its slot is null and
      no live timer concerns it, as after hover-enter. */
  ghost predicate Paused(p: Panel, t: Toast) {
    t in p.toasts && NoTimerFor(p, t.id) && !Armed(p, t.id)
  }

  /** A paused toast is left exactly as it is by every event except its
      own hover-leave and its own close. */
  lemma {:induction false} PausedStep(p: Panel, t: Toast, ev: UiEvent)
    requires Inv(p) && Paused(p, t)
    requires ev != CloseEvent(t.id) && ev != HoverLeaveEvent(t.id)
    ensures Paused(Step(p, ev), t)
  {
    var k :| 0 <= k < |p.toasts| && p.toasts[k] == t;
    match ev
    case PushEvent(e) =>
      assert Push(p, e).toasts[k] == t;
    case HoverEnterEvent(x) =>
    case HoverLeaveEvent(x) =>
    case CloseEvent(x) =>
      if HasId(p.toasts, x) {
        assert StartHide(p, x).toasts[k] == t;
      }
    case TimerFires(h) =>
      if h in p.pending {
        var m := p.pending[h];
        match m.action
        case BeginHide =>
          assert StartHide(p.(pending := p.pending - {h}), m.id).toasts[k] == t;
        case Discard =>
          assert t in Elapse(p, h).toasts;
      }
  }

  /** Hover-enter, then no hover-leave: the toast is never auto-hidden or
      removed, whether it was visible or already hiding; only its close
      button moves it on. */
  lemma {:induction false} HoveredToastStays(p: Panel, t: Toast, evs: seq<UiEvent>)
    requires Inv(p) && t in p.toasts
    requires forall i :: 0 <= i < |evs| ==> evs[i] != CloseEvent(t.id) && evs[i] != HoverLeaveEvent(t.id)
    ensures t in Run(HoverEnter(p, t.id), evs).toasts
  {
    HoverEnterPauses(p, t.id);
    ClearInv(p, t.id);
    PausedRun(HoverEnter(p, t.id), t, evs);
  }

  lemma {:induction false} PausedRun(p: Panel, t: Toast, evs: seq<UiEvent>)
    requires Inv(p) && Paused(p, t)
    requires forall i :: 0 <= i < |evs| ==> evs[i] != CloseEvent(t.id) && evs[i] != HoverLeaveEvent(t.id)
    ensures Paused(Run(p, evs), t)
    decreases |evs|
  {
    if evs != [] {
      PausedStep(p, t, evs[0]);
      StepInv(p, evs[0]);
      PausedRun(Step(p, evs[0]), t, evs[1..]);
    }
  }

  /** A pushed toast, left alone: its auto-hide timer makes it hiding, and
      the removal timer that arms then takes it off the list. */
  lemma PushThenExpire(p: Panel, e: ToastBus.ToastEvent)
    requires Inv(p)
    ensures var id := p.nextId;
            var shown := Push(p, e);
            var hiding := Elapse(shown, p.nextHandle);
            var gone := Elapse(hiding, p.nextHandle + 1);
            && shown.toasts == p.toasts + [Toast(id, e.message, e.variant, false)]
            && shown.pending[p.nextHandle] == Timer(id, BeginHide, e.timeout)
            && hiding.toasts == p.toasts + [Toast(id, e.message, e.variant, true)]
            && hiding.pending[p.nextHandle + 1] == Timer(id, Discard, RemoveAfter)
            && gone.toasts == p.toasts
  {
    var id := p.nextId;
    var t := Toast(id, e.message, e.variant, false);
    var shown := Push(p, e);
    assert shown.toasts == p.toasts + [t];
    assert shown.pending[p.nextHandle] == Timer(id, BeginHide, e.timeout);
    var q := shown.(pending := shown.pending - {p.nextHandle});
    var hiding := StartHide(q, id);
    assert Elapse(shown, p.nextHandle) == hiding;
    assert !HasId(p.toasts, id);
    MarkAppended(p.toasts, t);
    assert hiding.toasts == p.toasts + [t.(hiding := true)];
    assert hiding.nextHandle == p.nextHandle + 2;
    assert hiding.pending[p.nextHandle + 1] == Timer(id, Discard, RemoveAfter);
    var gone := Elapse(hiding, p.nextHandle + 1);
    assert gone.toasts == RemoveId(hiding.toasts, id);
    RemoveAppended(p.toasts, t.(hiding := true));
  }

  lemma MarkAppended(ts: seq<Toast>, t: Toast)
    requires !HasId(ts, t.id)
    ensures MarkHiding(ts + [t], t.id) == ts + [t.(hiding := true)]
  {
    assert forall i :: 0 <= i < |ts| ==> ts[i].id != t.id;
  }

  lemma {:induction false} RemoveAppended(ts: seq<Toast>, t: Toast)
    requires !HasId(ts, t.id)
    ensures RemoveId(ts + [t], t.id) == ts
  {
    if ts != [] {
      assert (ts + [t])[1..] == ts[1..] + [t];
      RemoveAppended(ts[1..], t);
      assert ts[0].id != t.id;
    }
  }

  // ---------------------------------------------------------------------
  // The component's state

  class ToastPanel {
    var toasts: seq<Toast>
    /** `timersRef.current` */
    var slots: map<ToastId, Option<Handle>>
    /** The timers the browser still holds. */
    var pending: map<Handle, Timer>
    var nextId: nat
    var nextHandle: nat

    function State(): Panel
      reads this
    {
      Panel(toasts, slots, pending, nextId, nextHandle)
    }

    ghost predicate Valid()
      reads this
    {
      Inv(State())
    }

    constructor ()
      ensures Valid() && State() == Empty
    {
      toasts, slots, pending, nextId, nextHandle := [], map[], map[], 0, 0;
    }

    /** The browser's `setTimeout`: a fresh handle for a new live timer. */
    method SetTimeout(id: ToastId, action: Action, delay: int) returns (h: Handle)
      modifies this
      ensures h == old(nextHandle) && nextHandle == h + 1
      ensures pending == old(pending)[h := Timer(id, action, delay)]
      ensures toasts == old(toasts) && slots == old(slots) && nextId == old(nextId)
    {
      h := nextHandle;
      nextHandle := nextHandle + 1;
      pending := pending[h := Timer(id, action, delay)];
    }

    /** The browser's `clearTimeout`: the timer will not run. */
    method ClearTimeout(h: Handle)
      modifies this
      ensures pending == old(pending) - {h}
      ensures toasts == old(toasts) && slots == old(slots)
      ensures nextId == old(nextId) && nextHandle == old(nextHandle)
    {
      pending := pending - {h};
    }

    /** `startHide(id)` */
    method StartHiding(id: ToastId)
      requires Valid() && id < nextId
      modifies this
      ensures Valid() && State() == StartHide(old(State()), id)
      ensures PendingFor(State(), id) == {old(nextHandle)}
    {
      ghost var s0 := State();
      toasts := MarkHiding(toasts, id);
      if id in slots && slots[id].Some? {
        ClearTimeout(slots[id].value);
        slots := slots[id := None];
      }
      var h := SetTimeout(id, Discard, RemoveAfter);
      slots := slots[id := Some(h)];
      StartHideInv(s0, id);
    }

    /** The dashboard's `pushToast(message, variant, timeout)`, with the
        same defaults as the bus. */
    method PushToast(message: string, variant: Option<Variant>, timeout: Option<int>)
      requires Valid()
      modifies this
      ensures Valid() && State() == Push(old(State()), ToastBus.MakeEvent(message, variant, timeout))
      ensures toasts == old(toasts) + [Toast(old(nextId), message, variant.GetOr(Success), false)]
    {
      ghost var s0 := State();
      var e := ToastBus.MakeEvent(message, variant, timeout);
      var id := nextId;
      nextId := nextId + 1;
      toasts := toasts + [Toast(id, e.message, e.variant, false)];
      var h := SetTimeout(id, BeginHide, e.timeout);
      slots := slots[id := Some(h)];
      PushInv(s0, e);
    }

    /** `onMouseEnter` of the toast with this id. */
    method OnMouseEnter(id: ToastId)
      requires Valid()
      modifies this
      ensures Valid() && State() == HoverEnter(old(State()), id)
      ensures toasts == old(toasts) && NoTimerFor(State(), id)
    {
      ghost var s0 := State();
      if id in slots && slots[id].Some? {
        ClearTimeout(slots[id].value);
        slots := slots[id := None];
      }
      ClearInv(s0, id);
    }

    /** `onMouseLeave` of the toast with this id. */
    method OnMouseLeave(id: ToastId)
      requires Valid()
      modifies this
      ensures Valid() && State() == HoverLeave(old(State()), id)
    {
      ghost var s0 := State();
      var t := Find(toasts, id);
      if t.Some? && !t.value.hiding && !(id in slots && slots[id].Some?) {
        var h := SetTimeout(id, BeginHide, ResumeAfter);
        slots := slots[id := Some(h)];
      }
      StepInv(s0, HoverLeaveEvent(id));
    }

    /** The close button of the toast with this id. */
    method OnClose(id: ToastId)
      requires Valid()
      modifies this
      ensures Valid() && State() == Close(old(State()), id)
    {
      if Find(toasts, id).Some? {
        var k :| 0 <= k < |toasts| && toasts[k].id == id;
        StartHiding(id);
      }
    }

    /** The browser runs timer `h`, if it is still live. */
    method RunTimer(h: Handle)
      requires Valid()
      modifies this
      ensures Valid() && State() == Elapse(old(State()), h)
    {
      ghost var s0 := State();
      if h in pending {
        var t := pending[h];
        pending := pending - {h};
        match t.action {
          case BeginHide =>
            assert Inv(State());
            StartHiding(t.id);
          case Discard =>
            toasts := RemoveId(toasts, t.id);
            if t.id in slots && slots[t.id].Some? {
              ClearTimeout(slots[t.id].value);
            }
            slots := slots[t.id := None];
            ElapseInv(s0, h);
        }
      }
    }
  }
}
