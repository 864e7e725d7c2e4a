/**
 * mhsm_hsm_t and the functions of mbb/hsm.c that change it. The machine's
 * fields are the fields of the C struct; the timer array is the start of the
 * context the program hands to mhsm_initialise, and `links` holds the
 * current_substate pointer of every defined state. Every method is proved to
 * do exactly what the function of the same name in Engine describes.
 */
module Hsm {
  import opened HsmTypes
  import opened Ancestry
  import opened TimerTable
  import opened Queues
  import opened Engine

  /** How a run of the engine ended: in a leaf, or out of fuel. */
  datatype Status = Settled(leaf: StateId) | Exhausted

  function Pack<C(!new)>(status: Status, snap: Snapshot<C>): (o: Outcome<C>)
    ensures status.Settled? <==> o.Done?
    ensures o.snap == snap && (o.Done? ==> o.leaf == status.leaf)
  {
    match status
    case Settled(leaf) => Done(leaf, snap)
    case Exhausted => OutOfFuel(snap)
  }

  /** One round of the replay loop, in terms of what ProcessEvent returned. */
  lemma ReplayStep<C(!new)>(cfg: Config<C>, fuel: nat, k: nat, snap: Snapshot<C>, status: Status, processed: Snapshot<C>)
    requires ValidConfig(cfg) && Fits(cfg, snap) && snap.inTransition && 0 < k && snap.queue != []
    requires Pack(status, processed) == ProcessEvent(cfg, fuel, snap.current, snap.queue[0], snap)
    ensures status.Exhausted? ==> Replay(cfg, fuel, k, snap) == (false, processed)
    ensures status.Settled? ==>
      Replay(cfg, fuel, k, snap) == Replay(cfg, fuel, k - 1, processed.(current := status.leaf, queue := Dequeue(processed.queue)))
  {
  }

  /** The replay loop ends when its count runs out or the queue is empty. */
  lemma ReplayStops<C(!new)>(cfg: Config<C>, fuel: nat, k: nat, snap: Snapshot<C>)
    requires ValidConfig(cfg) && Fits(cfg, snap) && snap.inTransition && (k == 0 || snap.queue == [])
    ensures Replay(cfg, fuel, k, snap) == (true, snap)
  {
  }

  /** One round of the initial-transition loop, once the ENTRY handler has kept its state. */
  lemma InitialStep<C(!new)>(cfg: Config<C>, fuel: nat, state: StateId, snap: Snapshot<C>, entered: Snapshot<C>,
                             initial: Option<StateId>, processed: Snapshot<C>)
    requires ValidConfig(cfg) && Fits(cfg, snap) && state < |cfg.parents| && snap.inTransition
    requires LocalDispatch(cfg, state, EntryEvent, snap) == (Some(state), entered)
    requires LocalDispatch(cfg, state, InitialEvent, entered) == (initial, processed)
    ensures InitialLoop(cfg, fuel, state, snap) ==
      if initial == Some(state) then Done(state, processed)
      else if fuel == 0 then OutOfFuel(processed)
      else InitialLoop(cfg, fuel - 1, initial.value, processed)
  {
  }

  class Machine<C(!new)> {
    const cfg: Config<C>
    var context: C
    var current: StateId
    const deferred: Queue<Event>
    var inTransition: bool
    /** Whether start_timer_callback is installed; the only callback there is, is mtmr_start_timer. */
    var timerCallback: bool
    const timers: array<Timer>
    const links: array<Option<StateId>>
    /** Every handler call so far, oldest first. */
    ghost var trace: seq<Delivery>

    ghost predicate Valid()
      reads this, deferred, deferred.data
    {
      && ValidConfig(cfg)
      && deferred.Valid()
      && deferred.data.Length == cfg.capacity
      && timers.Length == cfg.timerCount
      && links.Length == |cfg.parents|
      && current < |cfg.parents|
    }

    /** The part of the machine and its context that the engine reads and writes. */
    ghost function Snap(): (s: Snapshot<C>)
      reads this, deferred, timers, links
    {
      Snapshot(context, current, deferred.Contents, inTransition, timerCallback, timers[..], links[..], trace)
    }

    lemma SnapFits()
      requires Valid()
      ensures Fits(cfg, Snap())
    {
    }

    /**
     * The storage a program declares for a machine and its states: the
     * states of `parents`, defined with MHSM_DEFINE_STATE and so with NULL
     * links, a deferred queue of `capacity` events and a context holding
     * `timerCount` timers. Nothing is initialised yet; mhsm_initialise does
     * that.
     */
    constructor (parents: seq<Option<StateId>>, handler: Handler<C>, capacity: nat, timerCount: nat, context: C)
      requires 0 < capacity
      ensures cfg == Config(parents, handler, capacity, timerCount)
      ensures fresh(deferred) && fresh(deferred.data) && deferred.data.Length == capacity
      ensures fresh(timers) && timers.Length == timerCount
      ensures fresh(links) && links[..] == seq(|parents|, _ => None)
      ensures this.context == context && trace == []
    {
      cfg := Config(parents, handler, capacity, timerCount);
      this.context := context;
      deferred := new Queue<Event>(capacity);
      timers := new Timer[timerCount];
      links := new Option<StateId>[|parents|](_ => None);
      trace := [];
    }

    /**
     * mhsm_initialise(hsm, context, initial_state): an empty deferred queue,
     * the given context and current state, not in transition, no start-timer
     * callback. The links and the timers are not touched.
     */
    method Initialise(context: C, initialState: StateId)
      requires ValidConfig(cfg) && deferred.data.Length == cfg.capacity
      requires timers.Length == cfg.timerCount && links.Length == |cfg.parents|
      requires initialState < |cfg.parents|
      modifies this, deferred
      ensures Valid()
      ensures Snap() == old(Snap()).(context := context, current := initialState, queue := [],
                                     inTransition := false, timerCallback := false)
    {
      deferred.Initialise();
      this.context := context;
      current := initialState;
      inTransition := false;
      timerCallback := false;
    }

    /** mhsm_context. */
    function Context(): (c: C)
      reads this
      ensures c == context
    {
      context
    }

    /** mhsm_current_state: a state of the machine's tree. */
    function CurrentState(): (s: StateId)
      reads this, deferred, deferred.data
      ensures s == current
      ensures Valid() ==> s < |cfg.parents|
    {
      current
    }

    /** mhsm_is_in: the current state is `s` or lies below it; NULL holds every state. */
    predicate IsIn(s: Option<StateId>)
      reads this, deferred, deferred.data
      requires Valid()
      ensures IsIn(s) <==> s.None? || current == s.value || s.value in Ancestors(cfg.parents, current)
    {
      Ancestry.IsIn(cfg.parents, current, s)
    }

    /** _defer_event_arg. */
    method DeferEventArg(e: Event) returns (rc: int)
      requires Valid()
      modifies deferred, deferred.data
      ensures Valid()
      ensures (rc, Snap()) == Engine.DeferEventArg(cfg, e, old(Snap()))
    {
      if deferred.IsFull() {
        return -1;
      }
      deferred.Enqueue(e);
      rc := 0;
    }

    /** mhsm_start_timer. */
    method StartTimer(eventId: U32, period: U32) returns (rc: int)
      requires Valid() && (timerCallback ==> CUSTOM <= eventId < CUSTOM + cfg.timerCount)
      modifies timers
      ensures Valid()
      ensures (rc, Snap()) == StartTimerCall(cfg, eventId, period, old(Snap()))
    {
      if !timerCallback {
        return -1;
      }
      rc := TimerTable.StartTimer(timers, eventId, period);
    }

    /**
     * _local_dispatch: the handler of `s` processes `e`, and the engine calls
     * it makes take effect in order.
     */
    method LocalDispatch(s: StateId, e: Event) returns (result: Option<StateId>)
      requires Valid() && inTransition && s < |cfg.parents|
      modifies this, deferred, deferred.data, timers
      ensures Valid()
      ensures (result, Snap()) == Engine.LocalDispatch(cfg, s, e, old(Snap()))
    {
      var reaction := cfg.handler(context, s, e);
      context := reaction.context;
      trace := trace + [Delivery(s, e, reaction.next)];
      result := reaction.next;
      ghost var logged := Snap();
      var actions := reaction.actions;
      var k := 0;
      while k < |actions|
        invariant 0 <= k <= |actions|
        invariant Valid() && inTransition
        invariant Snap() == Perform(cfg, logged, actions[..k])
      {
        assert actions[..k + 1][..k] == actions[..k];
        PerformAction(actions[k]);
        k := k + 1;
      }
      assert actions[..k] == actions;
    }

    /** One engine call a handler made: defer an event, or start a timer. */
    method PerformAction(a: Action)
      requires Valid() && inTransition && ActionFits(cfg, a)
      modifies deferred, deferred.data, timers
      ensures Valid() && inTransition
      ensures Snap() == Apply(cfg, old(Snap()), a)
    {
      match a {
        case Dispatch(event) =>
          var _ := DeferEventArg(event);
        case StartTimer(eventId, period) =>
          var _ := StartTimer(eventId, period);
      }
    }

    /** _transition(from, target). */
    method Transition(fuel: nat, from: StateId, target: StateId) returns (status: Status)
      requires Valid() && inTransition && from < |cfg.parents| && target < |cfg.parents|
      modifies this, deferred, deferred.data, timers, links
      ensures Valid()
      ensures Pack(status, Snap()) == Engine.Transition(cfg, fuel, from, target, old(Snap()))
      decreases fuel, 5
    {
      if IsAncestor(cfg.parents, Some(from), Some(target)) {
        status := EnterState(fuel, Some(from), target);
        return;
      }
      var lca: Option<StateId>;
      if IsAncestor(cfg.parents, Some(target), Some(from)) {
        lca := Some(target);
      } else {
        lca := Lca(cfg.parents, Some(from), Some(target));
      }
      status := ExitTowards(fuel, from, lca, target);
    }

    /**
     * The exit loop of _transition, from `from` up to `lca`, and the return
     * that follows it.
     */
    method ExitTowards(fuel: nat, from: StateId, lca: Option<StateId>, target: StateId) returns (status: Status)
      requires Valid() && inTransition && from < |cfg.parents| && target < |cfg.parents|
      requires OnTheWayUp(cfg.parents, Some(from), lca)
      requires lca == Some(target) || IsAncestor(cfg.parents, lca, Some(target))
      modifies this, deferred, deferred.data, timers, links
      ensures Valid()
      ensures Pack(status, Snap()) == ExitLoop(cfg, fuel, Some(from), lca, target, old(Snap()))
      decreases fuel, 4
    {
      var cur: Option<StateId> := Some(from);
      while cur != lca
        invariant Valid() && inTransition
        invariant cur.Some? ==> cur.value < |cfg.parents|
        invariant OnTheWayUp(cfg.parents, cur, lca)
        invariant ExitLoop(cfg, fuel, cur, lca, target, Snap()) == ExitLoop(cfg, fuel, Some(from), lca, target, old(Snap()))
        decreases Rank(cur)
      {
        ghost var before := Snap();
        var result := LocalDispatch(cur.value, ExitEvent);
        if result != cur {
          status := RedirectFrom(fuel, cur.value, result.value);
          return;
        }
        cur := cfg.parents[cur.value];
      }
      if lca == Some(target) {
        return Settled(target);
      }
      status := EnterState(fuel, lca, target);
    }

    /** _enter_state(from, target). */
    method EnterState(fuel: nat, from: Option<StateId>, target: StateId) returns (status: Status)
      requires Valid() && inTransition && target < |cfg.parents|
      requires IsAncestor(cfg.parents, from, Some(target))
      modifies this, deferred, deferred.data, timers, links
      ensures Valid()
      ensures Pack(status, Snap()) == Engine.EnterState(cfg, fuel, from, target, old(Snap()))
      decreases fuel, 3
    {
      // link the path to the target
      var cur: StateId := target;
      while cfg.parents[cur] != from
        invariant Valid() && inTransition && cur < |cfg.parents|
        invariant IsAncestor(cfg.parents, from, Some(cur))
        invariant LinkPath(cfg.parents, links[..], from, cur) == LinkPath(cfg.parents, old(links[..]), from, target)
        invariant Snap() == old(Snap()).(links := links[..])
        decreases cur
      {
        var up := cfg.parents[cur].value;
        links[up] := Some(cur);
        cur := up;
      }
      status := EnterPath(fuel, from, target, cur);
    }

    /**
     * The entry loop of _enter_state, from `top`, the child of `from` on the
     * linked path, down to the target, then the initial transitions.
     */
    method EnterPath(fuel: nat, from: Option<StateId>, target: StateId, top: StateId) returns (status: Status)
      requires Valid() && inTransition && target < |cfg.parents|
      requires IsAncestor(cfg.parents, from, Some(target))
      requires var path := PathDown(cfg.parents, from, target);
        top == path[0] && LinkedFrom(links[..], path, 0)
      modifies this, deferred, deferred.data, timers, links
      ensures Valid()
      ensures Pack(status, Snap()) == EntryLoop(cfg, fuel, from, target, 0, old(Snap()))
      decreases fuel, 2
    {
      ghost var path := PathDown(cfg.parents, from, target);
      ghost var i := 0;
      var cur := top;
      while cur != target
        invariant Valid() && inTransition
        invariant 0 <= i < |path| && cur == path[i]
        invariant LinkedFrom(links[..], path, i)
        invariant EntryLoop(cfg, fuel, from, target, i, Snap()) == EntryLoop(cfg, fuel, from, target, 0, old(Snap()))
        decreases |path| - i
      {
        ghost var before := Snap();
        var result, next := EnterOne(from, target, i, cur);
        if result != Some(cur) {
          status := RedirectFrom(fuel, cur, result.value);
          return;
        }
        cur := next;
        i := i + 1;
      }
      status := InitialDescent(fuel, target);
    }

    /**
     * One round of the entry loop: ENTRY to the state at position i of the
     * path; when its handler keeps the state, follow its link to the next
     * state down and clear the link.
     */
    method EnterOne(from: Option<StateId>, target: StateId, ghost i: nat, cur: StateId) returns (result: Option<StateId>, next: StateId)
      requires Valid() && inTransition && target < |cfg.parents|
      requires IsAncestor(cfg.parents, from, Some(target))
      requires var path := PathDown(cfg.parents, from, target);
        i < |path| - 1 && cur == path[i] && LinkedFrom(links[..], path, i)
      modifies this, deferred, deferred.data, timers, links
      ensures Valid() && inTransition
      ensures var path := PathDown(cfg.parents, from, target);
        var (r, snap') := Engine.LocalDispatch(cfg, cur, EntryEvent, old(Snap()));
        && result == r && result.Some?
        && (result != Some(cur) ==> Snap() == snap')
        && (result == Some(cur) ==>
              next == path[i + 1] && LinkedFrom(links[..], path, i + 1) && Snap() == snap'.(links := snap'.links[cur := None]))
    {
      ghost var path := PathDown(cfg.parents, from, target);
      assert links[cur] == Some(path[i + 1]);
      result := LocalDispatch(cur, EntryEvent);
      if result != Some(cur) {
        return result, cur;
      }
      ClearLink(cfg.parents, from, target, links[..], i);
      next := links[cur].value;
      Unlink(cur);
    }

    /** `current_substate = NULL` on the state `s`. */
    method Unlink(s: StateId)
      requires Valid() && s < |cfg.parents|
      modifies links
      ensures Valid() && Snap() == old(Snap()).(links := old(Snap()).links[s := None])
    {
      links[s] := None;
    }

    /** The initial-transition loop of _enter_state. */
    method InitialDescent(fuel: nat, target: StateId) returns (status: Status)
      requires Valid() && inTransition && target < |cfg.parents|
      modifies this, deferred, deferred.data, timers, links
      ensures Valid()
      ensures Pack(status, Snap()) == InitialLoop(cfg, fuel, target, old(Snap()))
      decreases fuel, 1, 1
    {
      var state: StateId := target;
      var budget: nat := fuel;
      while true
        invariant Valid() && inTransition && state < |cfg.parents| && budget <= fuel
        invariant InitialLoop(cfg, budget, state, Snap()) == InitialLoop(cfg, fuel, target, old(Snap()))
        decreases budget
      {
        var finished, next;
        status, finished, next := DescentRound(budget, state);
        if finished {
          return;
        }
        state := next;
        budget := budget - 1;
      }
    }

    /**
     * One round of the initial-transition loop: either the loop finishes
     * here, or it goes on from `next` with one unit of fuel less.
     */
    method DescentRound(budget: nat, state: StateId) returns (status: Status, finished: bool, next: StateId)
      requires Valid() && inTransition && state < |cfg.parents|
      modifies this, deferred, deferred.data, timers, links
      ensures Valid()
      ensures finished ==> Pack(status, Snap()) == InitialLoop(cfg, budget, state, old(Snap()))
      ensures !finished ==>
        && 0 < budget && inTransition && next < |cfg.parents|
        && InitialLoop(cfg, budget, state, old(Snap())) == InitialLoop(cfg, budget - 1, next, Snap())
      decreases budget, 1, 0
    {
      var entered, initial := EnterAndStart(state);
      if entered != Some(state) {
        status := RedirectFrom(budget, state, entered.value);
        return status, true, state;
      }
      if initial == Some(state) {
        return Settled(state), true, state;
      }
      if budget == 0 {
        return Exhausted, true, state;
      }
      return Exhausted, false, initial.value;
    }

    /**
     * ENTRY to `state`, then, when its handler keeps the state, INITIAL: one
     * round of the initial-transition loop, up to the decision what follows.
     */
    method EnterAndStart(state: StateId) returns (entered: Option<StateId>, initial: Option<StateId>)
      requires Valid() && inTransition && state < |cfg.parents|
      modifies this, deferred, deferred.data, timers
      ensures Valid() && inTransition
      ensures entered.Some? && entered.value < |cfg.parents|
      ensures entered == Some(state) ==> initial.Some? && initial.value < |cfg.parents|
      ensures var (result, snap') := Engine.LocalDispatch(cfg, state, EntryEvent, old(Snap()));
        entered == result && (entered != Some(state) ==> Snap() == snap')
      ensures entered == Some(state) ==> forall fuel: nat {:trigger InitialLoop(cfg, fuel, state, old(Snap()))} ::
        InitialLoop(cfg, fuel, state, old(Snap())) ==
          if initial == Some(state) then Done(state, Snap())
          else if fuel == 0 then OutOfFuel(Snap())
          else InitialLoop(cfg, fuel - 1, initial.value, Snap())
    {
      ghost var before := Snap();
      entered := LocalDispatch(state, EntryEvent);
      if entered != Some(state) {
        return entered, None;
      }
      ghost var afterEntry := Snap();
      initial := LocalDispatch(state, InitialEvent);
      forall fuel: nat
        ensures InitialLoop(cfg, fuel, state, before) ==
          if initial == Some(state) then Done(state, Snap())
          else if fuel == 0 then OutOfFuel(Snap())
          else InitialLoop(cfg, fuel - 1, initial.value, Snap())
      {
        InitialStep(cfg, fuel, state, before, afterEntry, initial, Snap());
      }
    }

    /**
     * `return _transition(hsm, s, result)` after the handler of `s` returned
     * another state while it was exited or entered.
     */
    method RedirectFrom(fuel: nat, s: StateId, result: StateId) returns (status: Status)
      requires Valid() && inTransition && s < |cfg.parents| && result < |cfg.parents|
      modifies this, deferred, deferred.data, timers, links
      ensures Valid()
      ensures Pack(status, Snap()) == Redirect(cfg, fuel, s, result, old(Snap()))
      decreases fuel, 0
    {
      if fuel == 0 {
        return Exhausted;
      }
      status := Transition(fuel - 1, s, result);
    }

    /** _dispatch_event(state, e). */
    method ProcessEvent(fuel: nat, state: StateId, e: Event) returns (status: Status)
      requires Valid() && inTransition && state < |cfg.parents|
      modifies this, deferred, deferred.data, timers, links
      ensures Valid()
      ensures Pack(status, Snap()) == Engine.ProcessEvent(cfg, fuel, state, e, old(Snap()))
    {
      if e.id == INITIAL {
        status := EnterState(fuel, None, state);
        return;
      }
      var target: Option<StateId> := Some(state);
      var cur: Option<StateId> := Some(state);
      while cur.Some?
        invariant Valid() && inTransition
        invariant cur.Some? ==> cur.value < |cfg.parents|
        invariant target.Some? ==> target.value < |cfg.parents|
        invariant Route(cfg, state, cur, e, target, Snap()) == Route(cfg, state, Some(state), e, Some(state), old(Snap()))
        decreases Rank(cur)
      {
        var result := LocalDispatch(cur.value, e);
        if result != cur && target == Some(state) {
          target := result;
        }
        cur := cfg.parents[cur.value];
      }
      if target.None? {
        var _ := DeferEventArg(e);
        return Settled(state);
      }
      if target != Some(state) {
        status := Transition(fuel, state, target.value);
        return;
      }
      status := Settled(state);
    }

    /**
     * mhsm_dispatch_event_arg(hsm, id, arg). `ok` is false when a transition
     * needed more than `fuel` redirections or initial steps.
     */
    method DispatchEventArg(fuel: nat, id: U32, arg: I32) returns (ok: bool)
      requires Valid()
      modifies this, deferred, deferred.data, timers, links
      ensures Valid()
      ensures (ok, Snap()) == Engine.DispatchEventArg(cfg, fuel, Event(id, arg), old(Snap()))
    {
      if inTransition {
        var _ := DeferEventArg(Event(id, arg));
        return true;
      }
      inTransition := true;
      var status := ProcessEvent(fuel, current, Event(id, arg));
      if status.Exhausted? {
        return false;
      }
      current := status.leaf;
      ok := ReplayDeferred(fuel);
      if ok {
        inTransition := false;
      }
    }

    /**
     * The replay loop of mhsm_dispatch_event_arg: the queue's length is read
     * once, and that many times the head is processed and then dequeued.
     */
    method ReplayDeferred(fuel: nat) returns (ok: bool)
      requires Valid() && inTransition
      modifies this, deferred, deferred.data, timers, links
      ensures Valid()
      ensures (ok, Snap()) == Replay(cfg, fuel, old(|deferred.Contents|), old(Snap()))
    {
      var nevents := deferred.Length();
      ghost var goal := Replay(cfg, fuel, nevents, Snap());
      var i := 0;
      while i < nevents
        invariant 0 <= i <= nevents
        invariant Valid() && inTransition
        invariant Replay(cfg, fuel, nevents - i, Snap()) == goal
      {
        if deferred.IsEmpty() {
          ghost var now := Snap();
          SnapFits();
          ReplayStops(cfg, fuel, nevents - i, now);
          return true;
        }
        var settled := ReplayHead(fuel, nevents - i);
        if !settled {
          return false;
        }
        i := i + 1;
      }
      ghost var now := Snap();
      SnapFits();
      ReplayStops(cfg, fuel, 0, now);
      ok := true;
    }

    /** One round of the replay loop: process the head of the queue, settle, dequeue. */
    method ReplayHead(fuel: nat, ghost k: nat) returns (settled: bool)
      requires Valid() && inTransition && 0 < k && deferred.Contents != []
      modifies this, deferred, deferred.data, timers, links
      ensures Valid() && inTransition
      ensures Replay(cfg, fuel, k, old(Snap())) == if settled then Replay(cfg, fuel, k - 1, Snap()) else (false, Snap())
    {
      ghost var before := Snap();
      var status := ProcessEvent(fuel, current, deferred.Head());
      ReplayStep(cfg, fuel, k, before, status, Snap());
      if status.Exhausted? {
        return false;
      }
      current := status.leaf;
      DropHead();
      settled := true;
    }

    /** MQUE_DEQUEUE on the deferred queue. */
    method DropHead()
      requires Valid()
      modifies deferred
      ensures Valid() && Snap() == old(Snap()).(queue := Dequeue(old(Snap()).queue))
    {
      deferred.Dequeue();
    }

    /** mhsm_dispatch_event(hsm, id): the argument is 0. */
    method DispatchEvent(fuel: nat, id: U32) returns (ok: bool)
      requires Valid()
      modifies this, deferred, deferred.data, timers, links
      ensures Valid()
      ensures (ok, Snap()) == Engine.DispatchEventArg(cfg, fuel, Event(id, 0), old(Snap()))
    {
      ok := DispatchEventArg(fuel, id, 0);
    }
  }
}
