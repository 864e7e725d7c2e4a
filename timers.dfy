/**
 * mtmr_initialise_timers and mtmr_increment_timers of mbb/timer.c: the timer
 * table at the start of a machine's context, reset once and then advanced by
 * the elapsed milliseconds, dispatching the event of every timer that
 * expires.
 */
module Timers {
  import opened HsmTypes
  import opened TimerTable
  import opened Engine
  import opened Hsm

  /**
   * Where a run of the increment loop ends: false when a dispatch ran out
   * of fuel; the machine afterwards; the timer event ids it dispatched, in
   * order.
   */
  datatype Ticked<C> = Ticked(ok: bool, snap: Snapshot<C>, fired: seq<U32>)

  /** The timer array after mtmr_initialise_timers: the first n timers are stopped, the rest untouched. */
  function Reset(timers: seq<Timer>, n: nat): (r: seq<Timer>)
    requires n <= |timers|
    ensures |r| == |timers|
    ensures forall i :: 0 <= i < n ==> r[i] == Stopped
    ensures forall i :: n <= i < |r| ==> r[i] == timers[i]
  {
    seq(|timers|, i requires 0 <= i < |timers| => if i < n then Stopped else timers[i])
  }

  /**
   * mtmr_initialise_timers(hsm, last_timer_event): -1 for a NULL machine;
   * otherwise the timers of the events CUSTOM .. last_timer_event are
   * stopped, mtmr_start_timer becomes the machine's start-timer callback,
   * and the result is 0.
   */
  method InitialiseTimers<C(!new)>(hsm: Machine?<C>, lastTimerEvent: U32) returns (rc: int)
    requires hsm != null ==> hsm.Valid() && TimerCount(lastTimerEvent) <= hsm.cfg.timerCount
    modifies if hsm == null then {} else {hsm, hsm.timers}
    ensures hsm == null ==> rc == -1
    ensures hsm != null ==> rc == 0 && hsm.Valid()
    ensures hsm != null ==>
      hsm.Snap() == old(hsm.Snap()).(timers := Reset(old(hsm.timers[..]), TimerCount(lastTimerEvent)), timerCallback := true)
  {
    if hsm == null {
      return -1;
    }
    var timers := hsm.timers;
    var n: nat := TimerCount(lastTimerEvent);
    var i := 0;
    while i < n
      invariant 0 <= i <= n
      invariant hsm.Valid()
      invariant hsm.Snap() == old(hsm.Snap()).(timers := Reset(old(timers[..]), i))
    {
      timers[i] := timers[i].(active := false);
      timers[i] := timers[i].(period := 0);
      timers[i] := timers[i].(value := 0);
      i := i + 1;
    }
    hsm.timerCallback := true;
    rc := 0;
  }

  /** Event ids in [lo, hi), strictly ascending. */
  predicate AscendingIn(ids: seq<U32>, lo: int, hi: int)
  {
    && (forall k :: 0 <= k < |ids| ==> lo <= ids[k] < hi)
    && (forall k :: 0 <= k < |ids| - 1 ==> ids[k] < ids[k + 1])
  }

  lemma PrependAscending(id: U32, ids: seq<U32>, hi: int)
    requires id < hi && AscendingIn(ids, id + 1, hi)
    ensures AscendingIn([id] + ids, id, hi)
  {
  }

  /**
   * The loop of mtmr_increment_timers from timer i on: an active timer is
   * advanced; when it has reached its period its event is dispatched and
   * then it is made inactive. The flag is false when a dispatch ran out of
   * fuel; the loop stops there. `fired` lists the event ids dispatched, in
   * order (TickFiredAscending).
   */
  function Tick<C(!new)>(cfg: Config<C>, fuel: nat, n: nat, passed: U32, i: nat, snap: Snapshot<C>): (r: Ticked<C>)
    requires ValidConfig(cfg) && Fits(cfg, snap) && i <= n <= cfg.timerCount
    ensures Fits(cfg, r.snap) && r.snap.timerCallback == snap.timerCallback && snap.trace <= r.snap.trace
    decreases n - i
  {
    if i == n then Ticked(true, snap, [])
    else if !snap.timers[i].active then Tick(cfg, fuel, n, passed, i + 1, snap)
    else
      var advanced := snap.(timers := snap.timers[i := Advance(snap.timers[i], passed)]);
      if !Expired(advanced.timers[i]) then Tick(cfg, fuel, n, passed, i + 1, advanced)
      else
        var (ok, dispatched) := DispatchEventArg(cfg, fuel, Event(CUSTOM + i, 0), advanced);
        if !ok then Ticked(false, dispatched, [CUSTOM + i])
        else
          var rest := Tick(cfg, fuel, n, passed, i + 1, dispatched.(timers := dispatched.timers[i := dispatched.timers[i].(active := false)]));
          Ticked(rest.ok, rest.snap, [CUSTOM + i] + rest.fired)
  }

  /** Two runs of the increment loop that end alike, whatever they dispatched on the way. */
  ghost predicate SameEnd<C>(a: Ticked<C>, b: Ticked<C>)
  {
    a.ok == b.ok && a.snap == b.snap
  }

  /**
   * mtmr_increment_timers(hsm, last_timer_event, passed_msecs): -1 for a
   * NULL machine, 0 otherwise. `ok` is false when a dispatch ran out of fuel.
   */
  method IncrementTimers<C(!new)>(hsm: Machine?<C>, fuel: nat, lastTimerEvent: U32, passed: U32) returns (rc: int, ok: bool)
    requires hsm != null ==> hsm.Valid() && TimerCount(lastTimerEvent) <= hsm.cfg.timerCount
    modifies if hsm == null then {} else {hsm, hsm.deferred, hsm.deferred.data, hsm.timers, hsm.links}
    ensures hsm == null ==> rc == -1 && ok
    ensures hsm != null ==> rc == 0 && hsm.Valid()
    ensures hsm != null ==>
      var t := Tick(hsm.cfg, fuel, TimerCount(lastTimerEvent), passed, 0, old(hsm.Snap()));
      ok == t.ok && hsm.Snap() == t.snap
  {
    if hsm == null {
      return -1, true;
    }
    var n: nat := TimerCount(lastTimerEvent);
    var i := 0;
    while i < n
      invariant 0 <= i <= n
      invariant hsm.Valid()
      invariant SameEnd(Tick(hsm.cfg, fuel, n, passed, i, hsm.Snap()), Tick(hsm.cfg, fuel, n, passed, 0, old(hsm.Snap())))
    {
      ok := TickSlot(hsm, fuel, n, passed, i);
      if !ok {
        return 0, false;
      }
      i := i + 1;
    }
    return 0, true;
  }

  /** One round of the loop of mtmr_increment_timers, on timer i. */
  method TickSlot<C(!new)>(hsm: Machine<C>, fuel: nat, ghost n: nat, passed: U32, i: nat) returns (ok: bool)
    requires hsm.Valid() && i < n <= hsm.cfg.timerCount
    modifies hsm, hsm.deferred, hsm.deferred.data, hsm.timers, hsm.links
    ensures hsm.Valid()
    ensures var before := Tick(hsm.cfg, fuel, n, passed, i, old(hsm.Snap()));
      if ok then SameEnd(before, Tick(hsm.cfg, fuel, n, passed, i + 1, hsm.Snap())) else !before.ok && before.snap == hsm.Snap()
  {
    var timers := hsm.timers;
    if timers[i].active {
      AdvanceSlot(hsm, i, passed);
      if timers[i].value >= timers[i].period {
        ok := FireSlot(hsm, fuel, i);
        if !ok {
          return false;
        }
      }
    }
    ok := true;
  }

  /** An expired timer i: its event is dispatched, then, unless the dispatch ran out of fuel, the timer is made inactive. */
  method FireSlot<C(!new)>(hsm: Machine<C>, fuel: nat, i: nat) returns (ok: bool)
    requires hsm.Valid() && i < hsm.cfg.timerCount
    modifies hsm, hsm.deferred, hsm.deferred.data, hsm.timers, hsm.links
    ensures hsm.Valid()
    ensures var d := DispatchEventArg(hsm.cfg, fuel, Event(CUSTOM + i, 0), old(hsm.Snap()));
      && ok == d.0
      && hsm.Snap() == if ok then d.1.(timers := d.1.timers[i := d.1.timers[i].(active := false)]) else d.1
  {
    ghost var advanced := hsm.Snap();
    ok := hsm.DispatchEvent(fuel, CUSTOM + i);
    assert (ok, hsm.Snap()) == DispatchEventArg(hsm.cfg, fuel, Event(CUSTOM + i, 0), advanced);
    if ok {
      StopSlot(hsm, i);
    }
  }

  /** `timer->value += passed_msecs` on timer i. */
  method AdvanceSlot<C(!new)>(hsm: Machine<C>, i: nat, passed: U32)
    requires hsm.Valid() && i < hsm.timers.Length
    modifies hsm.timers
    ensures hsm.Valid()
    ensures var before := old(hsm.Snap());
      hsm.Snap() == before.(timers := before.timers[i := Advance(before.timers[i], passed)])
  {
    hsm.timers[i] := hsm.timers[i].(value := (hsm.timers[i].value + passed) % WORD);
  }

  /** `timer->active = 0` on timer i. */
  method StopSlot<C(!new)>(hsm: Machine<C>, i: nat)
    requires hsm.Valid() && i < hsm.timers.Length
    modifies hsm.timers
    ensures hsm.Valid()
    ensures var before := old(hsm.Snap());
      hsm.Snap() == before.(timers := before.timers[i := before.timers[i].(active := false)])
  {
    hsm.timers[i] := hsm.timers[i].(active := false);
  }

  /**
   * The increment loop as evidently intended: an expired timer is made
   * inactive before its event is dispatched, so a handler that starts the
   * timer again keeps it running.
   */
  function TickFixed<C(!new)>(cfg: Config<C>, fuel: nat, n: nat, passed: U32, i: nat, snap: Snapshot<C>): (r: Ticked<C>)
    requires ValidConfig(cfg) && Fits(cfg, snap) && i <= n <= cfg.timerCount
    ensures Fits(cfg, r.snap) && r.snap.timerCallback == snap.timerCallback && snap.trace <= r.snap.trace
    decreases n - i
  {
    if i == n then Ticked(true, snap, [])
    else if !snap.timers[i].active then TickFixed(cfg, fuel, n, passed, i + 1, snap)
    else
      var advanced := snap.(timers := snap.timers[i := Advance(snap.timers[i], passed)]);
      if !Expired(advanced.timers[i]) then TickFixed(cfg, fuel, n, passed, i + 1, advanced)
      else
        var stopped := advanced.(timers := advanced.timers[i := advanced.timers[i].(active := false)]);
        var (ok, dispatched) := DispatchEventArg(cfg, fuel, Event(CUSTOM + i, 0), stopped);
        if !ok then Ticked(false, dispatched, [CUSTOM + i])
        else
          var rest := TickFixed(cfg, fuel, n, passed, i + 1, dispatched);
          Ticked(rest.ok, rest.snap, [CUSTOM + i] + rest.fired)
  }

  /** The increment loop dispatches the events of timers i up to n - 1 at most once each, in ascending order. */
  lemma {:induction false} TickFiredAscending<C(!new)>(cfg: Config<C>, fuel: nat, n: nat, passed: U32, i: nat, snap: Snapshot<C>)
    requires ValidConfig(cfg) && Fits(cfg, snap) && i <= n <= cfg.timerCount
    ensures AscendingIn(Tick(cfg, fuel, n, passed, i, snap).fired, CUSTOM + i, CUSTOM + n)
    decreases n - i
  {
    if i < n {
      var t := snap.timers[i];
      var advanced := snap.(timers := snap.timers[i := Advance(t, passed)]);
      if !t.active {
        TickFiredAscending(cfg, fuel, n, passed, i + 1, snap);
      } else if !Expired(advanced.timers[i]) {
        TickFiredAscending(cfg, fuel, n, passed, i + 1, advanced);
      } else {
        var dispatched := DispatchEventArg(cfg, fuel, Event(CUSTOM + i, 0), advanced);
        if dispatched.0 {
          var stopped := dispatched.1.(timers := dispatched.1.timers[i := dispatched.1.timers[i].(active := false)]);
          TickFiredAscending(cfg, fuel, n, passed, i + 1, stopped);
          PrependAscending(CUSTOM + i, Tick(cfg, fuel, n, passed, i + 1, stopped).fired, CUSTOM + n);
        }
      }
    }
  }

  /** The corrected loop, too, dispatches each timer's event at most once, in ascending order. */
  lemma {:induction false} TickFixedFiredAscending<C(!new)>(cfg: Config<C>, fuel: nat, n: nat, passed: U32, i: nat, snap: Snapshot<C>)
    requires ValidConfig(cfg) && Fits(cfg, snap) && i <= n <= cfg.timerCount
    ensures AscendingIn(TickFixed(cfg, fuel, n, passed, i, snap).fired, CUSTOM + i, CUSTOM + n)
    decreases n - i
  {
    if i < n {
      var t := snap.timers[i];
      var advanced := snap.(timers := snap.timers[i := Advance(t, passed)]);
      if !t.active {
        TickFixedFiredAscending(cfg, fuel, n, passed, i + 1, snap);
      } else if !Expired(advanced.timers[i]) {
        TickFixedFiredAscending(cfg, fuel, n, passed, i + 1, advanced);
      } else {
        var stopped := advanced.(timers := advanced.timers[i := advanced.timers[i].(active := false)]);
        var dispatched := DispatchEventArg(cfg, fuel, Event(CUSTOM + i, 0), stopped);
        if dispatched.0 {
          TickFixedFiredAscending(cfg, fuel, n, passed, i + 1, dispatched.1);
          PrependAscending(CUSTOM + i, TickFixed(cfg, fuel, n, passed, i + 1, dispatched.1).fired, CUSTOM + n);
        }
      }
    }
  }

  /** mtmr_increment_timers with the timer made inactive before its event is dispatched. */
  method IncrementTimersFixed<C(!new)>(hsm: Machine?<C>, fuel: nat, lastTimerEvent: U32, passed: U32) returns (rc: int, ok: bool)
    requires hsm != null ==> hsm.Valid() && TimerCount(lastTimerEvent) <= hsm.cfg.timerCount
    modifies if hsm == null then {} else {hsm, hsm.deferred, hsm.deferred.data, hsm.timers, hsm.links}
    ensures hsm == null ==> rc == -1 && ok
    ensures hsm != null ==> rc == 0 && hsm.Valid()
    ensures hsm != null ==>
      var t := TickFixed(hsm.cfg, fuel, TimerCount(lastTimerEvent), passed, 0, old(hsm.Snap()));
      ok == t.ok && hsm.Snap() == t.snap
  {
    if hsm == null {
      return -1, true;
    }
    var n: nat := TimerCount(lastTimerEvent);
    var i := 0;
    while i < n
      invariant 0 <= i <= n
      invariant hsm.Valid()
      invariant SameEnd(TickFixed(hsm.cfg, fuel, n, passed, i, hsm.Snap()), TickFixed(hsm.cfg, fuel, n, passed, 0, old(hsm.Snap())))
    {
      ok := TickSlotFixed(hsm, fuel, n, passed, i);
      if !ok {
        return 0, false;
      }
      i := i + 1;
    }
    return 0, true;
  }

  /** One round of the corrected loop, on timer i. */
  method TickSlotFixed<C(!new)>(hsm: Machine<C>, fuel: nat, ghost n: nat, passed: U32, i: nat) returns (ok: bool)
    requires hsm.Valid() && i < n <= hsm.cfg.timerCount
    modifies hsm, hsm.deferred, hsm.deferred.data, hsm.timers, hsm.links
    ensures hsm.Valid()
    ensures var before := TickFixed(hsm.cfg, fuel, n, passed, i, old(hsm.Snap()));
      if ok then SameEnd(before, TickFixed(hsm.cfg, fuel, n, passed, i + 1, hsm.Snap())) else !before.ok && before.snap == hsm.Snap()
  {
    var timers := hsm.timers;
    if timers[i].active {
      AdvanceSlot(hsm, i, passed);
      if timers[i].value >= timers[i].period {
        ok := FireSlotFixed(hsm, fuel, i);
        if !ok {
          return false;
        }
      }
    }
    ok := true;
  }

  /** An expired timer i, as evidently intended: the timer is made inactive, then its event is dispatched. */
  method FireSlotFixed<C(!new)>(hsm: Machine<C>, fuel: nat, i: nat) returns (ok: bool)
    requires hsm.Valid() && i < hsm.cfg.timerCount
    modifies hsm, hsm.deferred, hsm.deferred.data, hsm.timers, hsm.links
    ensures hsm.Valid()
    ensures var before := old(hsm.Snap());
      var d := DispatchEventArg(hsm.cfg, fuel, Event(CUSTOM + i, 0), before.(timers := before.timers[i := before.timers[i].(active := false)]));
      ok == d.0 && hsm.Snap() == d.1
  {
    StopSlot(hsm, i);
    ghost var stopped := hsm.Snap();
    ok := hsm.DispatchEvent(fuel, CUSTOM + i);
    assert (ok, hsm.Snap()) == DispatchEventArg(hsm.cfg, fuel, Event(CUSTOM + i, 0), stopped);
  }
}
