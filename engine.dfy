/**
 * The behaviour of the engine of mbb/hsm.c as functions over a snapshot of
 * everything a dispatch can change. The class Hsm.Machine implements the
 * same engine with loops and in-place updates and is proved equal to these
 * functions; the lemmas of EngineFacts are stated over them.
 *
 * A handler is one function for all states: given the context, a state and
 * an event it returns the state to become active (None for NULL), the new
 * context, and the engine calls it made while it ran (a dispatch to the
 * same machine, which is deferred because a handler only ever runs while
 * in_transition is set, and mhsm_start_timer).
 *
 * The recursion of a redirected transition and the loop of the initial
 * descent end only if the handlers let them; each of them spends one unit
 * of fuel, and a run that needs more fuel than it has stops with OutOfFuel.
 */
module Engine {
  import opened HsmTypes
  import opened Ancestry
  import opened TimerTable

  datatype Action = Dispatch(event: Event) | StartTimer(eventId: U32, period: U32)

  datatype Reaction<C> = Reaction(next: Option<StateId>, context: C, actions: seq<Action>)

  type Handler<!C> = (C, StateId, Event) -> Reaction<C>

  /** One call of a handler: the state, the event and what the handler returned. */
  datatype Delivery = Delivery(state: StateId, event: Event, result: Option<StateId>)

  /**
   * What does not change while a program runs: the parent table, the
   * handler, the capacity of the deferred-event queue and the number of
   * timers in the context.
   */
  datatype Config<!C> = Config(parents: seq<Option<StateId>>, handler: Handler<C>, capacity: nat, timerCount: nat)

  /** A timer may be started only for an event id that has a timer. */
  predicate ActionFits<C(!new)>(cfg: Config<C>, a: Action)
  {
    a.StartTimer? ==> CUSTOM <= a.eventId < CUSTOM + cfg.timerCount
  }

  /**
   * What the source demands of a handler: it returns a defined state or
   * NULL, never NULL for ENTRY, INITIAL or EXIT (the engine would assert or
   * dereference it), and starts timers only for timer events.
   */
  predicate ValidReaction<C(!new)>(cfg: Config<C>, e: Event, r: Reaction<C>)
  {
    && (r.next.Some? ==> r.next.value < |cfg.parents|)
    && (e.id == ENTRY || e.id == INITIAL || e.id == EXIT ==> r.next.Some?)
    && forall k :: 0 <= k < |r.actions| ==> ActionFits(cfg, r.actions[k])
  }

  ghost predicate ValidConfig<C(!new)>(cfg: Config<C>)
  {
    && ValidTree(cfg.parents)
    && 0 < cfg.capacity
    && CUSTOM + cfg.timerCount <= WORD
    && forall c, s: StateId, e :: s < |cfg.parents| ==> ValidReaction(cfg, e, cfg.handler(c, s, e))
  }

  /**
   * Everything a dispatch may change: the machine's fields (context, current
   * state, deferred queue, in_transition, whether the start-timer callback
   * is installed), the timer array of the context, the current_substate
   * links of the states, and the log of handler calls.
   */
  datatype Snapshot<C> = Snapshot(
    context: C,
    current: StateId,
    queue: seq<Event>,
    inTransition: bool,
    timerCallback: bool,
    timers: seq<Timer>,
    links: seq<Option<StateId>>,
    trace: seq<Delivery>)

  predicate Fits<C(!new)>(cfg: Config<C>, s: Snapshot<C>)
  {
    && s.current < |cfg.parents|
    && |s.queue| <= cfg.capacity
    && |s.timers| == cfg.timerCount
    && |s.links| == |cfg.parents|
  }

  /**
   * What every step of the engine below the top-level dispatch keeps: the
   * current state, in_transition and the callback are not touched, and the
   * deferred queue and the log only grow at their ends.
   */
  predicate Extends<C(!new)>(cfg: Config<C>, s: Snapshot<C>, t: Snapshot<C>)
  {
    && Fits(cfg, t)
    && t.current == s.current
    && t.inTransition == s.inTransition
    && t.timerCallback == s.timerCallback
    && s.queue <= t.queue
    && s.trace <= t.trace
  }

  datatype Outcome<C> = Done(leaf: StateId, snap: Snapshot<C>) | OutOfFuel(snap: Snapshot<C>)

  /** No engine call in `actions` starts a timer. */
  predicate StartsNoTimer(actions: seq<Action>)
  {
    forall k :: 0 <= k < |actions| ==> !actions[k].StartTimer?
  }

  /** An outcome of a step that started from `s`. */
  predicate Continues<C(!new)>(cfg: Config<C>, s: Snapshot<C>, o: Outcome<C>)
  {
    Extends(cfg, s, o.snap) && (o.Done? ==> o.leaf < |cfg.parents|)
  }

  // ---------------------------------------------------------------------
  // The deferred-event queue and the start-timer capability

  /** MQUE_ENQUEUE: a full queue is left as it is. */
  function Enqueue(capacity: nat, q: seq<Event>, e: Event): (r: seq<Event>)
    requires |q| <= capacity
    ensures |r| <= capacity && q <= r
    ensures |q| < capacity <==> r == q + [e]
  {
    if |q| == capacity then q else q + [e]
  }

  /** MQUE_DEQUEUE: an empty queue is left as it is. */
  function Dequeue(q: seq<Event>): (r: seq<Event>)
    ensures q != [] ==> [q[0]] + r == q
    ensures q == [] ==> r == []
  {
    if q == [] then [] else q[1..]
  }

  /** _defer_event_arg: -1 and nothing changes when the queue is full; 0 and the event is queued otherwise. */
  function DeferEventArg<C(!new)>(cfg: Config<C>, e: Event, snap: Snapshot<C>): (r: (int, Snapshot<C>))
    requires Fits(cfg, snap)
    ensures Extends(cfg, snap, r.1)
    ensures r.0 == -1 <==> |snap.queue| == cfg.capacity
    ensures r.0 == -1 ==> r.1 == snap
    ensures r.0 != -1 ==> r.0 == 0 && r.1 == snap.(queue := snap.queue + [e])
  {
    if |snap.queue| == cfg.capacity then (-1, snap)
    else (0, snap.(queue := Enqueue(cfg.capacity, snap.queue, e)))
  }

  /**
   * mhsm_start_timer: -1 without a callback, whatever the event id;
   * otherwise what mtmr_start_timer returns, which needs an event id that
   * has a timer.
   */
  function StartTimerCall<C(!new)>(cfg: Config<C>, eventId: U32, period: U32, snap: Snapshot<C>): (r: (int, Snapshot<C>))
    requires Fits(cfg, snap) && (snap.timerCallback ==> CUSTOM <= eventId < CUSTOM + cfg.timerCount)
    ensures Extends(cfg, snap, r.1) && r.1.queue == snap.queue && r.1.trace == snap.trace
    ensures !snap.timerCallback ==> r == (-1, snap)
    ensures snap.timerCallback ==> r.0 == 0 && r.1 == snap.(timers := Arm(snap.timers, eventId, period))
  {
    if !snap.timerCallback then (-1, snap)
    else (0, snap.(timers := Arm(snap.timers, eventId, period)))
  }

  /**
   * The effect of one engine call a handler made. Handlers only run while
   * in_transition is set, so a dispatch from a handler is only deferred.
   */
  function Apply<C(!new)>(cfg: Config<C>, snap: Snapshot<C>, a: Action): (r: Snapshot<C>)
    requires Fits(cfg, snap) && ActionFits(cfg, a) && snap.inTransition
    ensures Extends(cfg, snap, r) && r.links == snap.links && r.trace == snap.trace
    ensures !a.StartTimer? ==> r.timers == snap.timers
  {
    match a
    case Dispatch(e) => DeferEventArg(cfg, e, snap).1
    case StartTimer(id, period) => StartTimerCall(cfg, id, period, snap).1
  }

  /** The effects of the engine calls a handler made, in the order it made them. */
  function Perform<C(!new)>(cfg: Config<C>, snap: Snapshot<C>, actions: seq<Action>): (r: Snapshot<C>)
    requires Fits(cfg, snap) && snap.inTransition
    requires forall k :: 0 <= k < |actions| ==> ActionFits(cfg, actions[k])
    ensures Extends(cfg, snap, r) && r.links == snap.links && r.trace == snap.trace
    ensures StartsNoTimer(actions) ==> r.timers == snap.timers
    decreases |actions|
  {
    if actions == [] then snap
    else Apply(cfg, Perform(cfg, snap, actions[..|actions| - 1]), actions[|actions| - 1])
  }

  // ---------------------------------------------------------------------
  // The engine

  /**
   * _local_dispatch: the handler of `s` processes `e`; the call is logged
   * and the engine calls it made take effect.
   */
  function LocalDispatch<C(!new)>(cfg: Config<C>, s: StateId, e: Event, snap: Snapshot<C>): (r: (Option<StateId>, Snapshot<C>))
    requires ValidConfig(cfg) && Fits(cfg, snap) && s < |cfg.parents| && snap.inTransition
    ensures Extends(cfg, snap, r.1) && r.1.links == snap.links
    ensures r.1.trace == snap.trace + [Delivery(s, e, r.0)]
    ensures StartsNoTimer(cfg.handler(snap.context, s, e).actions) ==> r.1.timers == snap.timers
    ensures r.0.Some? ==> r.0.value < |cfg.parents|
    ensures e.id == ENTRY || e.id == INITIAL || e.id == EXIT ==> r.0.Some?
  {
    var reaction := cfg.handler(snap.context, s, e);
    var logged := snap.(context := reaction.context, trace := snap.trace + [Delivery(s, e, reaction.next)]);
    (reaction.next, Perform(cfg, logged, reaction.actions))
  }

  /** `cur` is on the way up to `lca`: NULL is above everything. */
  predicate OnTheWayUp(parents: seq<Option<StateId>>, cur: Option<StateId>, lca: Option<StateId>)
    requires ValidTree(parents)
    requires cur.Some? ==> cur.value < |parents|
  {
    lca.None? || (cur.Some? && (cur == lca || IsAncestor(parents, lca, cur)))
  }

  /**
   * The least common ancestor _transition computes before it exits: `from`
   * when it is an ancestor of the target, the target when that is an
   * ancestor of `from`, _find_least_common_ancestor otherwise.
   */
  function TransitionLca(parents: seq<Option<StateId>>, from: StateId, target: StateId): (lca: Option<StateId>)
    requires ValidTree(parents) && from < |parents| && target < |parents|
    ensures OnTheWayUp(parents, Some(from), lca)
    ensures lca == Some(target) || IsAncestor(parents, lca, Some(target))
    ensures IsAncestor(parents, Some(from), Some(target)) ==> lca == Some(from)
    ensures !IsAncestor(parents, Some(from), Some(target)) && IsAncestor(parents, Some(target), Some(from)) ==> lca == Some(target)
    ensures !IsAncestor(parents, Some(from), Some(target)) && !IsAncestor(parents, Some(target), Some(from)) ==>
      lca == Lca(parents, Some(from), Some(target))
  {
    if IsAncestor(parents, Some(from), Some(target)) then Some(from)
    else if IsAncestor(parents, Some(target), Some(from)) then Some(target)
    else Lca(parents, Some(from), Some(target))
  }

  /** _transition(from, target). */
  function Transition<C(!new)>(cfg: Config<C>, fuel: nat, from: StateId, target: StateId, snap: Snapshot<C>): (r: Outcome<C>)
    requires ValidConfig(cfg) && Fits(cfg, snap) && from < |cfg.parents| && target < |cfg.parents| && snap.inTransition
    ensures Continues(cfg, snap, r)
    decreases fuel, 5, 0
  {
    if IsAncestor(cfg.parents, Some(from), Some(target)) then
      EnterState(cfg, fuel, Some(from), target, snap)
    else
      ExitLoop(cfg, fuel, Some(from), TransitionLca(cfg.parents, from, target), target, snap)
  }

  /**
   * The exit loop of _transition and what follows it: EXIT to `cur` and up
   * to, not including, `lca`; an EXIT handler that returns another state
   * redirects the whole transition. At `lca`: done if it is the target,
   * otherwise the target is entered from it.
   */
  function ExitLoop<C(!new)>(cfg: Config<C>, fuel: nat, cur: Option<StateId>, lca: Option<StateId>, target: StateId, snap: Snapshot<C>)
    : (r: Outcome<C>)
    requires ValidConfig(cfg) && Fits(cfg, snap) && target < |cfg.parents| && snap.inTransition
    requires cur.Some? ==> cur.value < |cfg.parents|
    requires OnTheWayUp(cfg.parents, cur, lca)
    requires lca == Some(target) || IsAncestor(cfg.parents, lca, Some(target))
    ensures Continues(cfg, snap, r)
    decreases fuel, 4, Rank(cur)
  {
    if cur == lca then
      if lca == Some(target) then Done(target, snap) else EnterState(cfg, fuel, lca, target, snap)
    else
      var (result, snap') := LocalDispatch(cfg, cur.value, ExitEvent, snap);
      if result != cur then Redirect(cfg, fuel, cur.value, result.value, snap')
      else ExitLoop(cfg, fuel, cfg.parents[cur.value], lca, target, snap')
  }

  /**
   * _enter_state(from, target): link the path down from `from` to the
   * target, then enter it top-down.
   */
  function EnterState<C(!new)>(cfg: Config<C>, fuel: nat, from: Option<StateId>, target: StateId, snap: Snapshot<C>): (r: Outcome<C>)
    requires ValidConfig(cfg) && Fits(cfg, snap) && target < |cfg.parents| && snap.inTransition
    requires IsAncestor(cfg.parents, from, Some(target))
    ensures Continues(cfg, snap, r)
    decreases fuel, 3, 0
  {
    var (links, top) := LinkPath(cfg.parents, snap.links, from, target);
    EntryLoop(cfg, fuel, from, target, 0, snap.(links := links))
  }

  /**
   * The entry loop of _enter_state, at position i of the path: ENTRY to each
   * state above the target, top-down, clearing the link of a state once its
   * child is reached; an ENTRY handler that returns another state redirects
   * the whole transition. At the target, the initial descent starts.
   */
  function EntryLoop<C(!new)>(cfg: Config<C>, fuel: nat, from: Option<StateId>, target: StateId, i: nat, snap: Snapshot<C>)
    : (r: Outcome<C>)
    requires ValidConfig(cfg) && Fits(cfg, snap) && target < |cfg.parents| && snap.inTransition
    requires IsAncestor(cfg.parents, from, Some(target))
    requires i < |PathDown(cfg.parents, from, target)|
    ensures Continues(cfg, snap, r)
    decreases fuel, 2, |PathDown(cfg.parents, from, target)| - i
  {
    var path := PathDown(cfg.parents, from, target);
    if i == |path| - 1 then InitialLoop(cfg, fuel, target, snap)
    else
      var (result, snap') := LocalDispatch(cfg, path[i], EntryEvent, snap);
      if result != Some(path[i]) then Redirect(cfg, fuel, path[i], result.value, snap')
      else EntryLoop(cfg, fuel, from, target, i + 1, snap'.(links := snap'.links[path[i] := None]))
  }

  /**
   * The initial-transition loop of _enter_state: ENTRY to the target, then
   * INITIAL; a state other than the target becomes the new target, until an
   * INITIAL handler returns its own state.
   */
  function InitialLoop<C(!new)>(cfg: Config<C>, fuel: nat, target: StateId, snap: Snapshot<C>): (r: Outcome<C>)
    requires ValidConfig(cfg) && Fits(cfg, snap) && target < |cfg.parents| && snap.inTransition
    ensures Continues(cfg, snap, r)
    decreases fuel, 1, 0
  {
    var (entered, snap') := LocalDispatch(cfg, target, EntryEvent, snap);
    if entered != Some(target) then Redirect(cfg, fuel, target, entered.value, snap')
    else
      var (initial, snap'') := LocalDispatch(cfg, target, InitialEvent, snap');
      if initial == Some(target) then Done(target, snap'')
      else if fuel == 0 then OutOfFuel(snap'')
      else InitialLoop(cfg, fuel - 1, initial.value, snap'')
  }

  /** `return _transition(hsm, s, result)` after a handler of `s` returned another state. */
  function Redirect<C(!new)>(cfg: Config<C>, fuel: nat, s: StateId, result: StateId, snap: Snapshot<C>): (r: Outcome<C>)
    requires ValidConfig(cfg) && Fits(cfg, snap) && s < |cfg.parents| && result < |cfg.parents| && snap.inTransition
    ensures Continues(cfg, snap, r)
    decreases fuel, 0, 0
  {
    if fuel == 0 then OutOfFuel(snap) else Transition(cfg, fuel - 1, s, result, snap)
  }

  /**
   * The for loop of _dispatch_event from `cur` up to the root: every state
   * on the way processes the event; `target` is replaced by the first
   * result, leaf upwards, that differs both from its own state and from the
   * leaf.
   */
  function Route<C(!new)>(cfg: Config<C>, leaf: StateId, cur: Option<StateId>, e: Event, target: Option<StateId>, snap: Snapshot<C>)
    : (r: (Option<StateId>, Snapshot<C>))
    requires ValidConfig(cfg) && Fits(cfg, snap) && snap.inTransition
    requires cur.Some? ==> cur.value < |cfg.parents|
    requires target.Some? ==> target.value < |cfg.parents|
    ensures Extends(cfg, snap, r.1) && r.1.links == snap.links
    ensures r.0.Some? ==> r.0.value < |cfg.parents|
    decreases Rank(cur)
  {
    if cur.None? then (target, snap)
    else
      var (result, snap') := LocalDispatch(cfg, cur.value, e, snap);
      var target' := if result != cur && target == Some(leaf) then result else target;
      Route(cfg, leaf, cfg.parents[cur.value], e, target', snap')
  }

  /**
   * _dispatch_event(state, e): INITIAL enters `state` from NULL; any other
   * event is routed from `state` to the root, then deferred (NULL target),
   * ignored (target is the leaf) or turned into a transition.
   */
  function ProcessEvent<C(!new)>(cfg: Config<C>, fuel: nat, state: StateId, e: Event, snap: Snapshot<C>): (r: Outcome<C>)
    requires ValidConfig(cfg) && Fits(cfg, snap) && state < |cfg.parents| && snap.inTransition
    ensures Continues(cfg, snap, r)
  {
    if e.id == INITIAL then EnterState(cfg, fuel, None, state, snap)
    else
      var (target, snap') := Route(cfg, state, Some(state), e, Some(state), snap);
      if target.None? then Done(state, DeferEventArg(cfg, e, snap').1)
      else if target != Some(state) then Transition(cfg, fuel, state, target.value, snap')
      else Done(state, snap')
  }

  /**
   * The replay loop of mhsm_dispatch_event_arg with k rounds left: the head
   * of the queue is processed while it is still queued, then dequeued; an
   * empty queue ends the loop early.
   */
  function Replay<C(!new)>(cfg: Config<C>, fuel: nat, k: nat, snap: Snapshot<C>): (r: (bool, Snapshot<C>))
    requires ValidConfig(cfg) && Fits(cfg, snap) && snap.inTransition
    ensures Fits(cfg, r.1) && r.1.inTransition == snap.inTransition && r.1.timerCallback == snap.timerCallback
    ensures snap.trace <= r.1.trace
    decreases k, 1
  {
    if k == 0 || snap.queue == [] then (true, snap)
    else ReplayRound(cfg, fuel, k, snap)
  }

  /** One round of the replay: the head of the queue is processed, the machine settles, the head is dequeued. */
  function ReplayRound<C(!new)>(cfg: Config<C>, fuel: nat, k: nat, snap: Snapshot<C>): (r: (bool, Snapshot<C>))
    requires ValidConfig(cfg) && Fits(cfg, snap) && snap.inTransition && 0 < k && snap.queue != []
    ensures Fits(cfg, r.1) && r.1.inTransition == snap.inTransition && r.1.timerCallback == snap.timerCallback
    ensures snap.trace <= r.1.trace
    decreases k, 0
  {
    match ProcessEvent(cfg, fuel, snap.current, snap.queue[0], snap)
    case OutOfFuel(snap') => (false, snap')
    case Done(leaf, snap') =>
      Replay(cfg, fuel, k - 1, snap'.(current := leaf, queue := Dequeue(snap'.queue)))
  }

  /**
   * mhsm_dispatch_event_arg: while a dispatch is running the event is only
   * deferred; otherwise it is processed, then as many queued events as the
   * queue held at that point are replayed, and in_transition is cleared.
   * The flag is false when a transition ran out of fuel.
   */
  function DispatchEventArg<C(!new)>(cfg: Config<C>, fuel: nat, e: Event, snap: Snapshot<C>): (r: (bool, Snapshot<C>))
    requires ValidConfig(cfg) && Fits(cfg, snap)
    ensures Fits(cfg, r.1) && r.1.timerCallback == snap.timerCallback && snap.trace <= r.1.trace
    ensures r.0 ==> r.1.inTransition == snap.inTransition
  {
    if snap.inTransition then (true, DeferEventArg(cfg, e, snap).1)
    else
      var busy := snap.(inTransition := true);
      match ProcessEvent(cfg, fuel, busy.current, e, busy)
      case OutOfFuel(snap') => (false, snap')
      case Done(leaf, snap') =>
        var settled := snap'.(current := leaf);
        var (ok, replayed) := Replay(cfg, fuel, |settled.queue|, settled);
        if ok then (true, replayed.(inTransition := false)) else (false, replayed)
  }
}
