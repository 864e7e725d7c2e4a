/**
 * What one call of mtmr_increment_timers does to the timer table: active
 * timers advance, inactive ones are left alone, expired ones fire in
 * ascending order and are stopped; and what happens to a timer that its
 * own timeout handler starts again.
 */
module TimerFacts {
  import opened HsmTypes
  import opened Ancestry
  import opened TimerTable
  import opened Engine
  import opened Timers

  // ---------------------------------------------------------------------
  // Handlers that start no timer leave the timer table alone

  /** No handler of the program ever starts a timer. */
  ghost predicate Timerless<C(!new)>(cfg: Config<C>)
  {
    forall c, s, e :: StartsNoTimer(cfg.handler(c, s, e).actions)
  }

  lemma {:induction false} TransitionKeepsTimers<C(!new)>(cfg: Config<C>, fuel: nat, from: StateId, target: StateId, snap: Snapshot<C>)
    requires ValidConfig(cfg) && Timerless(cfg) && Fits(cfg, snap) && from < |cfg.parents| && target < |cfg.parents| && snap.inTransition
    ensures Transition(cfg, fuel, from, target, snap).snap.timers == snap.timers
    decreases fuel, 5, 0
  {
    if IsAncestor(cfg.parents, Some(from), Some(target)) {
      EnterStateKeepsTimers(cfg, fuel, Some(from), target, snap);
    } else {
      ExitLoopKeepsTimers(cfg, fuel, Some(from), TransitionLca(cfg.parents, from, target), target, snap);
    }
  }

  lemma {:induction false} ExitLoopKeepsTimers<C(!new)>(cfg: Config<C>, fuel: nat, cur: Option<StateId>, lca: Option<StateId>, target: StateId,
                                                          snap: Snapshot<C>)
    requires ValidConfig(cfg) && Timerless(cfg) && Fits(cfg, snap) && target < |cfg.parents| && snap.inTransition
    requires cur.Some? ==> cur.value < |cfg.parents|
    requires OnTheWayUp(cfg.parents, cur, lca)
    requires lca == Some(target) || IsAncestor(cfg.parents, lca, Some(target))
    ensures ExitLoop(cfg, fuel, cur, lca, target, snap).snap.timers == snap.timers
    decreases fuel, 4, Rank(cur)
  {
    if cur == lca {
      if lca != Some(target) {
        EnterStateKeepsTimers(cfg, fuel, lca, target, snap);
      }
    } else {
      var (result, snap') := LocalDispatch(cfg, cur.value, ExitEvent, snap);
      if result != cur {
        RedirectKeepsTimers(cfg, fuel, cur.value, result.value, snap');
      } else {
        ExitLoopKeepsTimers(cfg, fuel, cfg.parents[cur.value], lca, target, snap');
      }
    }
  }

  lemma {:induction false} EnterStateKeepsTimers<C(!new)>(cfg: Config<C>, fuel: nat, from: Option<StateId>, target: StateId, snap: Snapshot<C>)
    requires ValidConfig(cfg) && Timerless(cfg) && Fits(cfg, snap) && target < |cfg.parents| && snap.inTransition
    requires IsAncestor(cfg.parents, from, Some(target))
    ensures EnterState(cfg, fuel, from, target, snap).snap.timers == snap.timers
    decreases fuel, 3, 0
  {
    var links := LinkPath(cfg.parents, snap.links, from, target).0;
    EntryLoopKeepsTimers(cfg, fuel, from, target, 0, snap.(links := links));
  }

  lemma {:induction false} EntryLoopKeepsTimers<C(!new)>(cfg: Config<C>, fuel: nat, from: Option<StateId>, target: StateId, i: nat,
                                                           snap: Snapshot<C>)
    requires ValidConfig(cfg) && Timerless(cfg) && Fits(cfg, snap) && target < |cfg.parents| && snap.inTransition
    requires IsAncestor(cfg.parents, from, Some(target))
    requires i < |PathDown(cfg.parents, from, target)|
    ensures EntryLoop(cfg, fuel, from, target, i, snap).snap.timers == snap.timers
    decreases fuel, 2, |PathDown(cfg.parents, from, target)| - i
  {
    var path := PathDown(cfg.parents, from, target);
    if i == |path| - 1 {
      InitialLoopKeepsTimers(cfg, fuel, target, snap);
    } else {
      var (result, snap') := LocalDispatch(cfg, path[i], EntryEvent, snap);
      if result != Some(path[i]) {
        RedirectKeepsTimers(cfg, fuel, path[i], result.value, snap');
      } else {
        EntryLoopKeepsTimers(cfg, fuel, from, target, i + 1, snap'.(links := snap'.links[path[i] := None]));
      }
    }
  }

  lemma {:induction false} InitialLoopKeepsTimers<C(!new)>(cfg: Config<C>, fuel: nat, target: StateId, snap: Snapshot<C>)
    requires ValidConfig(cfg) && Timerless(cfg) && Fits(cfg, snap) && target < |cfg.parents| && snap.inTransition
    ensures InitialLoop(cfg, fuel, target, snap).snap.timers == snap.timers
    decreases fuel, 1, 0
  {
    var (entered, snap') := LocalDispatch(cfg, target, EntryEvent, snap);
    if entered != Some(target) {
      RedirectKeepsTimers(cfg, fuel, target, entered.value, snap');
    } else {
      var (initial, snap'') := LocalDispatch(cfg, target, InitialEvent, snap');
      if initial != Some(target) && fuel != 0 {
        InitialLoopKeepsTimers(cfg, fuel - 1, initial.value, snap'');
      }
    }
  }

  lemma {:induction false} RedirectKeepsTimers<C(!new)>(cfg: Config<C>, fuel: nat, s: StateId, result: StateId, snap: Snapshot<C>)
    requires ValidConfig(cfg) && Timerless(cfg) && Fits(cfg, snap) && s < |cfg.parents| && result < |cfg.parents| && snap.inTransition
    ensures Redirect(cfg, fuel, s, result, snap).snap.timers == snap.timers
    decreases fuel, 0, 0
  {
    if fuel != 0 {
      TransitionKeepsTimers(cfg, fuel - 1, s, result, snap);
    }
  }

  lemma {:induction false} RouteKeepsTimers<C(!new)>(cfg: Config<C>, leaf: StateId, cur: Option<StateId>, e: Event, target: Option<StateId>,
                                                       snap: Snapshot<C>)
    requires ValidConfig(cfg) && Timerless(cfg) && Fits(cfg, snap) && snap.inTransition
    requires cur.Some? ==> cur.value < |cfg.parents|
    requires target.Some? ==> target.value < |cfg.parents|
    ensures Route(cfg, leaf, cur, e, target, snap).1.timers == snap.timers
    decreases Rank(cur)
  {
    if cur.Some? {
      var (result, snap') := LocalDispatch(cfg, cur.value, e, snap);
      var target' := if result != cur && target == Some(leaf) then result else target;
      RouteKeepsTimers(cfg, leaf, cfg.parents[cur.value], e, target', snap');
    }
  }

  lemma ProcessEventKeepsTimers<C(!new)>(cfg: Config<C>, fuel: nat, state: StateId, e: Event, snap: Snapshot<C>)
    requires ValidConfig(cfg) && Timerless(cfg) && Fits(cfg, snap) && state < |cfg.parents| && snap.inTransition
    ensures ProcessEvent(cfg, fuel, state, e, snap).snap.timers == snap.timers
  {
    if e.id == INITIAL {
      EnterStateKeepsTimers(cfg, fuel, None, state, snap);
    } else {
      RouteKeepsTimers(cfg, state, Some(state), e, Some(state), snap);
      var (target, snap') := Route(cfg, state, Some(state), e, Some(state), snap);
      if target.Some? && target != Some(state) {
        TransitionKeepsTimers(cfg, fuel, state, target.value, snap');
      }
    }
  }

  lemma {:induction false} ReplayKeepsTimers<C(!new)>(cfg: Config<C>, fuel: nat, k: nat, snap: Snapshot<C>)
    requires ValidConfig(cfg) && Timerless(cfg) && Fits(cfg, snap) && snap.inTransition
    ensures Replay(cfg, fuel, k, snap).1.timers == snap.timers
    decreases k, 1
  {
    if k != 0 && snap.queue != [] {
      ReplayRoundKeepsTimers(cfg, fuel, k, snap);
    }
  }

  lemma {:induction false} ReplayRoundKeepsTimers<C(!new)>(cfg: Config<C>, fuel: nat, k: nat, snap: Snapshot<C>)
    requires ValidConfig(cfg) && Timerless(cfg) && Fits(cfg, snap) && snap.inTransition && 0 < k && snap.queue != []
    ensures ReplayRound(cfg, fuel, k, snap).1.timers == snap.timers
    decreases k, 0
  {
    var o := ProcessEvent(cfg, fuel, snap.current, snap.queue[0], snap);
    ProcessEventKeepsTimers(cfg, fuel, snap.current, snap.queue[0], snap);
    if o.Done? {
      ReplayKeepsTimers(cfg, fuel, k - 1, o.snap.(current := o.leaf, queue := Dequeue(o.snap.queue)));
    }
  }

  /**
   * A program whose handlers start no timer: dispatching an event, with
   * every transition and replayed event it brings, leaves the timer table
   * as it was.
   */
  lemma DispatchKeepsTimers<C(!new)>(cfg: Config<C>, fuel: nat, e: Event, snap: Snapshot<C>)
    requires ValidConfig(cfg) && Timerless(cfg) && Fits(cfg, snap)
    ensures DispatchEventArg(cfg, fuel, e, snap).1.timers == snap.timers
  {
    if !snap.inTransition {
      var busy := snap.(inTransition := true);
      var o := ProcessEvent(cfg, fuel, busy.current, e, busy);
      ProcessEventKeepsTimers(cfg, fuel, busy.current, e, busy);
      if o.Done? {
        var settled := o.snap.(current := o.leaf);
        ReplayKeepsTimers(cfg, fuel, |settled.queue|, settled);
      }
    }
  }

  // ---------------------------------------------------------------------
  // One tick

  /** No active timer from i up to n expires when `passed` milliseconds are added. */
  predicate Quiet(timers: seq<Timer>, i: nat, n: nat, passed: U32)
    requires n <= |timers|
  {
    forall j :: i <= j < n && timers[j].active ==> !Expired(Advance(timers[j], passed))
  }

  /** The timers from i up to n advanced by `passed` where active; every other slot as it was. */
  function AdvanceActive(timers: seq<Timer>, i: nat, n: nat, passed: U32): (r: seq<Timer>)
    requires n <= |timers|
    ensures |r| == |timers|
    ensures forall j :: 0 <= j < |r| ==> r[j] == if i <= j < n && timers[j].active then Advance(timers[j], passed) else timers[j]
  {
    seq(|timers|, j requires 0 <= j < |timers| => if i <= j < n && timers[j].active then Advance(timers[j], passed) else timers[j])
  }

  /**
   * A tick in which no timer expires dispatches nothing: it adds the
   * elapsed time to every active timer, wrapping like a uint32_t, and
   * leaves the inactive timers and everything else untouched.
   */
  lemma {:induction false} QuietTick<C(!new)>(cfg: Config<C>, fuel: nat, n: nat, passed: U32, i: nat, snap: Snapshot<C>)
    requires ValidConfig(cfg) && Fits(cfg, snap) && i <= n <= cfg.timerCount
    requires Quiet(snap.timers, i, n, passed)
    ensures Tick(cfg, fuel, n, passed, i, snap) == Ticked(true, snap.(timers := AdvanceActive(snap.timers, i, n, passed)), [])
    decreases n - i
  {
    if i < n {
      var t := snap.timers[i];
      var next := if t.active then snap.(timers := snap.timers[i := Advance(t, passed)]) else snap;
      assert Tick(cfg, fuel, n, passed, i, snap) == Tick(cfg, fuel, n, passed, i + 1, next);
      assert Quiet(next.timers, i + 1, n, passed) by {
        forall j | i + 1 <= j < n && next.timers[j].active
          ensures !Expired(Advance(next.timers[j], passed))
        {
          assert next.timers[j] == snap.timers[j];
        }
      }
      QuietTick(cfg, fuel, n, passed, i + 1, next);
      var all := AdvanceActive(snap.timers, i, n, passed);
      assert AdvanceActive(next.timers, i + 1, n, passed) == all;
      assert next.(timers := all) == snap.(timers := all);
    } else {
      assert AdvanceActive(snap.timers, i, n, passed) == snap.timers;
    }
  }

  /** An active timer that reaches its period once `passed` milliseconds are added. */
  predicate Fires(t: Timer, passed: U32)
  {
    t.active && Expired(Advance(t, passed))
  }

  /** One timer after a tick: left alone when inactive; advanced, and stopped when it fires, when active. */
  function Stepped(t: Timer, passed: U32): Timer
  {
    if !t.active then t
    else if Expired(Advance(t, passed)) then Advance(t, passed).(active := false)
    else Advance(t, passed)
  }

  /** The timers from i up to n stepped; every other slot as it was. */
  function AfterTick(timers: seq<Timer>, i: nat, n: nat, passed: U32): (r: seq<Timer>)
    requires n <= |timers|
    ensures |r| == |timers|
    ensures forall j :: 0 <= j < |r| ==> r[j] == if i <= j < n then Stepped(timers[j], passed) else timers[j]
  {
    seq(|timers|, j requires 0 <= j < |timers| => if i <= j < n then Stepped(timers[j], passed) else timers[j])
  }

  lemma AfterTickStep(timers: seq<Timer>, i: nat, n: nat, passed: U32)
    requires i < n <= |timers|
    ensures AfterTick(timers[i := Stepped(timers[i], passed)], i + 1, n, passed) == AfterTick(timers, i, n, passed)
  {
    var stepped := timers[i := Stepped(timers[i], passed)];
    assert forall j :: 0 <= j < |timers| ==> AfterTick(stepped, i + 1, n, passed)[j] == AfterTick(timers, i, n, passed)[j];
  }

  /** The event ids of the timers from i up to n that fire when `passed` milliseconds are added, ascending. */
  function Expiring(timers: seq<Timer>, i: nat, n: nat, passed: U32): (ids: seq<U32>)
    requires i <= n <= |timers| && CUSTOM + n <= WORD
    ensures forall k :: 0 <= k < |ids| ==> CUSTOM + i <= ids[k] < CUSTOM + n
    ensures forall k :: 0 <= k < |ids| - 1 ==> ids[k] < ids[k + 1]
    decreases n - i
  {
    if i == n then []
    else
      var rest := Expiring(timers, i + 1, n, passed);
      if Fires(timers[i], passed) then [CUSTOM + i] + rest else rest
  }

  /** An event id is listed exactly when it belongs to a timer from i up to n that fires. */
  lemma {:induction false} ExpiringExactly(timers: seq<Timer>, i: nat, n: nat, passed: U32)
    requires i <= n <= |timers| && CUSTOM + n <= WORD
    ensures forall id :: id in Expiring(timers, i, n, passed) <==> CUSTOM + i <= id < CUSTOM + n && Fires(timers[id - CUSTOM], passed)
    decreases n - i
  {
    if i < n {
      ExpiringExactly(timers, i + 1, n, passed);
    }
  }

  /** Which timers from i up to n fire depends on those timers alone. */
  lemma {:induction false} ExpiringFrame(a: seq<Timer>, b: seq<Timer>, i: nat, n: nat, passed: U32)
    requires i <= n <= |a| && n <= |b| && CUSTOM + n <= WORD
    requires forall j :: i <= j < n ==> a[j] == b[j]
    ensures Expiring(a, i, n, passed) == Expiring(b, i, n, passed)
    decreases n - i
  {
    if i < n {
      ExpiringFrame(a, b, i + 1, n, passed);
    }
  }

  /**
   * A tick of a program whose handlers start no timer, when no dispatch
   * runs out of fuel: every active timer from i up to n advances and, when
   * it reaches its period, stops; inactive timers are left alone; the
   * timer events dispatched are exactly those of the expiring timers, in
   * ascending order.
   */
  lemma {:induction false} TickFires<C(!new)>(cfg: Config<C>, fuel: nat, n: nat, passed: U32, i: nat, snap: Snapshot<C>)
    requires ValidConfig(cfg) && Timerless(cfg) && Fits(cfg, snap) && i <= n <= cfg.timerCount
    ensures var r := Tick(cfg, fuel, n, passed, i, snap);
      r.ok ==> r.snap.timers == AfterTick(snap.timers, i, n, passed) && r.fired == Expiring(snap.timers, i, n, passed)
    decreases n - i, 1
  {
    if i == n {
      assert AfterTick(snap.timers, i, n, passed) == snap.timers;
    } else {
      var t := snap.timers[i];
      var stepped := snap.timers[i := Stepped(t, passed)];
      AfterTickStep(snap.timers, i, n, passed);
      ExpiringFrame(stepped, snap.timers, i + 1, n, passed);
      if !t.active {
        assert stepped == snap.timers;
        TickFires(cfg, fuel, n, passed, i + 1, snap);
      } else {
        var advanced := snap.(timers := snap.timers[i := Advance(t, passed)]);
        if !Expired(Advance(t, passed)) {
          assert advanced.timers == stepped;
          TickFires(cfg, fuel, n, passed, i + 1, advanced);
        } else {
          FiringTickFires(cfg, fuel, n, passed, i, snap);
        }
      }
    }
  }

  /** TickFires for a timer i that fires: its event is dispatched, then it is stopped. */
  lemma {:induction false} FiringTickFires<C(!new)>(cfg: Config<C>, fuel: nat, n: nat, passed: U32, i: nat, snap: Snapshot<C>)
    requires ValidConfig(cfg) && Timerless(cfg) && Fits(cfg, snap) && i < n <= cfg.timerCount && Fires(snap.timers[i], passed)
    ensures var r := Tick(cfg, fuel, n, passed, i, snap);
      r.ok ==> r.snap.timers == AfterTick(snap.timers, i, n, passed) && r.fired == Expiring(snap.timers, i, n, passed)
    decreases n - i, 0
  {
    var stepped := snap.timers[i := Stepped(snap.timers[i], passed)];
    AfterTickStep(snap.timers, i, n, passed);
    ExpiringFrame(stepped, snap.timers, i + 1, n, passed);
    var advanced := snap.(timers := snap.timers[i := Advance(snap.timers[i], passed)]);
    DispatchKeepsTimers(cfg, fuel, Event(CUSTOM + i, 0), advanced);
    var dispatched := DispatchEventArg(cfg, fuel, Event(CUSTOM + i, 0), advanced);
    if dispatched.0 {
      var stopped := dispatched.1.(timers := dispatched.1.timers[i := dispatched.1.timers[i].(active := false)]);
      assert stopped.timers == stepped;
      TickFires(cfg, fuel, n, passed, i + 1, stopped);
    }
  }

  /** The corrected loop does the same to a program whose handlers start no timer. */
  lemma {:induction false} TickFixedFires<C(!new)>(cfg: Config<C>, fuel: nat, n: nat, passed: U32, i: nat, snap: Snapshot<C>)
    requires ValidConfig(cfg) && Timerless(cfg) && Fits(cfg, snap) && i <= n <= cfg.timerCount
    ensures var r := TickFixed(cfg, fuel, n, passed, i, snap);
      r.ok ==> r.snap.timers == AfterTick(snap.timers, i, n, passed) && r.fired == Expiring(snap.timers, i, n, passed)
    decreases n - i, 1
  {
    if i == n {
      assert AfterTick(snap.timers, i, n, passed) == snap.timers;
    } else {
      var t := snap.timers[i];
      var stepped := snap.timers[i := Stepped(t, passed)];
      AfterTickStep(snap.timers, i, n, passed);
      ExpiringFrame(stepped, snap.timers, i + 1, n, passed);
      if !t.active {
        assert stepped == snap.timers;
        TickFixedFires(cfg, fuel, n, passed, i + 1, snap);
      } else {
        var advanced := snap.(timers := snap.timers[i := Advance(t, passed)]);
        if !Expired(Advance(t, passed)) {
          assert advanced.timers == stepped;
          TickFixedFires(cfg, fuel, n, passed, i + 1, advanced);
        } else {
          FiringTickFixedFires(cfg, fuel, n, passed, i, snap);
        }
      }
    }
  }

  /** TickFixedFires for a timer i that fires: it is stopped, then its event is dispatched. */
  lemma {:induction false} FiringTickFixedFires<C(!new)>(cfg: Config<C>, fuel: nat, n: nat, passed: U32, i: nat, snap: Snapshot<C>)
    requires ValidConfig(cfg) && Timerless(cfg) && Fits(cfg, snap) && i < n <= cfg.timerCount && Fires(snap.timers[i], passed)
    ensures var r := TickFixed(cfg, fuel, n, passed, i, snap);
      r.ok ==> r.snap.timers == AfterTick(snap.timers, i, n, passed) && r.fired == Expiring(snap.timers, i, n, passed)
    decreases n - i, 0
  {
    var stepped := snap.timers[i := Stepped(snap.timers[i], passed)];
    AfterTickStep(snap.timers, i, n, passed);
    ExpiringFrame(stepped, snap.timers, i + 1, n, passed);
    var advanced := snap.(timers := snap.timers[i := Advance(snap.timers[i], passed)]);
    var stopped := advanced.(timers := advanced.timers[i := advanced.timers[i].(active := false)]);
    assert stopped.timers == stepped;
    DispatchKeepsTimers(cfg, fuel, Event(CUSTOM + i, 0), stopped);
    var dispatched := DispatchEventArg(cfg, fuel, Event(CUSTOM + i, 0), stopped);
    if dispatched.0 {
      TickFixedFires(cfg, fuel, n, passed, i + 1, dispatched.1);
    }
  }

  // ---------------------------------------------------------------------
  // A timer started again by its own timeout handler, as the flashing
  // states of examples/pelican.c do

  /**
   * One root state whose handler, on the event of timer 0, starts timer 0
   * again with a period of 5 ms and keeps the state.
   */
  function FlashHandler(c: int, s: StateId, e: Event): Reaction<int>
  {
    Reaction(Some(s), c, if e.id == CUSTOM then [StartTimer(CUSTOM, 5)] else [])
  }

  const FlashConfig: Config<int> := Config([None], FlashHandler, DEFAULT_QUEUE_LENGTH, 1)

  /** Timer 0 armed for 5 ms with 4 ms elapsed, the callback installed, the machine idle. */
  const FlashStart: Snapshot<int> := Snapshot(0, 0, [], false, true, [Timer(5, 4, true)], [None], [])

  /** The machine after the timeout has been dispatched: the handler has re-armed timer 0. */
  const FlashDispatched: Snapshot<int> :=
    FlashStart.(timers := [Timer(5, 0, true)], trace := [Delivery(0, Event(CUSTOM, 0), Some(0))])

  lemma FlashConfigValid()
    ensures ValidConfig(FlashConfig)
  {
  }

  /** The handler's reaction to the timeout: a log entry, and timer 0 armed again. */
  lemma FlashReaction(t: Timer)
    ensures ValidConfig(FlashConfig)
    ensures var busy := FlashStart.(timers := [t], inTransition := true);
      LocalDispatch(FlashConfig, 0, Event(CUSTOM, 0), busy) == (Some(0), FlashDispatched.(inTransition := true))
  {
    FlashConfigValid();
    var busy := FlashStart.(timers := [t], inTransition := true);
    var d := Delivery(0, Event(CUSTOM, 0), Some(0));
    var actions := [StartTimer(CUSTOM, 5)];
    assert FlashHandler(0, 0, Event(CUSTOM, 0)) == Reaction(Some(0), 0, actions);
    var logged := busy.(context := 0, trace := busy.trace + [d]);
    assert busy.trace + [d] == [d];
    assert actions[..0] == [];
    assert Perform(FlashConfig, logged, actions) == Apply(FlashConfig, logged, actions[0]);
    assert Arm([t], CUSTOM, 5) == [Timer(5, 0, true)];
    assert Apply(FlashConfig, logged, actions[0]) == FlashDispatched.(inTransition := true);
  }

  /** Dispatching the timeout of timer 0 to the idle machine re-arms it, whatever state it was in. */
  lemma FlashDispatch(t: Timer)
    ensures ValidConfig(FlashConfig)
    ensures DispatchEventArg(FlashConfig, 0, Event(CUSTOM, 0), FlashStart.(timers := [t])) == (true, FlashDispatched)
  {
    FlashReaction(t);
    var busy := FlashStart.(timers := [t], inTransition := true);
    var routed := FlashDispatched.(inTransition := true);
    assert Route(FlashConfig, 0, Some(0), Event(CUSTOM, 0), Some(0), busy) == (Some(0), routed);
    assert ProcessEvent(FlashConfig, 0, 0, Event(CUSTOM, 0), busy) == Done(0, routed);
  }

  /**
   * As written: one more millisecond expires timer 0, its handler starts it
   * again, and the increment loop then stops it. The flashing ends after
   * one flash.
   */
  lemma RearmLost()
    ensures ValidConfig(FlashConfig)
    ensures Tick(FlashConfig, 0, 1, 1, 0, FlashStart) == Ticked(true, FlashDispatched.(timers := [Timer(5, 0, false)]), [CUSTOM])
  {
    FlashDispatch(Timer(5, 5, true));
    assert FlashStart.(timers := FlashStart.timers[0 := Advance(FlashStart.timers[0], 1)]) == FlashStart.(timers := [Timer(5, 5, true)]);
    var after := FlashDispatched.(timers := FlashDispatched.timers[0 := FlashDispatched.timers[0].(active := false)]);
    assert after == FlashDispatched.(timers := [Timer(5, 0, false)]);
    assert Tick(FlashConfig, 0, 1, 1, 1, after) == Ticked(true, after, []);
    assert [CUSTOM] + [] == [CUSTOM];
  }

  /** As intended: the timer the handler started again is still running after the tick. */
  lemma RearmKept()
    ensures ValidConfig(FlashConfig)
    ensures TickFixed(FlashConfig, 0, 1, 1, 0, FlashStart) == Ticked(true, FlashDispatched, [CUSTOM])
  {
    FlashDispatch(Timer(5, 5, false));
    var advanced := FlashStart.(timers := FlashStart.timers[0 := Advance(FlashStart.timers[0], 1)]);
    assert Expired(advanced.timers[0]);
    var stopped := advanced.(timers := advanced.timers[0 := advanced.timers[0].(active := false)]);
    assert stopped == FlashStart.(timers := [Timer(5, 5, false)]);
    var rest := TickFixed(FlashConfig, 0, 1, 1, 1, FlashDispatched);
    assert rest == Ticked(true, FlashDispatched, []);
    assert TickFixed(FlashConfig, 0, 1, 1, 0, FlashStart) == Ticked(rest.ok, rest.snap, [CUSTOM] + rest.fired);
    assert [CUSTOM] + rest.fired == [CUSTOM];
  }
}
