/**
 * The one-shot millisecond timers of mbb/timer.h and the callback
 * mtmr_start_timer of mbb/timer.c. The timers are an array of mtmr_t records
 * at the start of the machine's context; timer i belongs to the event id
 * CUSTOM + i.
 */
module TimerTable {
  import opened HsmTypes

  /** mtmr_t. */
  datatype Timer = Timer(period: U32, value: U32, active: bool)

  /** The state mtmr_initialise_timers puts every timer in. */
  const Stopped := Timer(0, 0, false)

  /** 2^32: uint32_t arithmetic wraps modulo this. */
  const WORD: int := 0x1_0000_0000

  /**
   * MTMR_NROF_TIMERS(LAST_TIMER_EVENT): the timers of the event ids CUSTOM
   * up to and including the last timer event. The subtraction is on
   * uint32_t, so a last event below CUSTOM - 1 wraps round to a count near
   * 2^32.
   */
  function TimerCount(lastTimerEvent: U32): (r: U32)
    ensures CUSTOM <= lastTimerEvent + 1 ==> r == lastTimerEvent + 1 - CUSTOM
    ensures lastTimerEvent >= CUSTOM ==> 0 < r && CUSTOM + r - 1 == lastTimerEvent
    ensures lastTimerEvent + 1 < CUSTOM ==> r == WORD + lastTimerEvent + 1 - CUSTOM && r > lastTimerEvent
  {
    (lastTimerEvent + WORD + 1 - CUSTOM) % WORD
  }

  /**
   * The effect of mtmr_start_timer on the timer array: the slot of the event
   * is armed (period given, value 0, active) and no other slot changes.
   */
  function Arm(timers: seq<Timer>, eventId: U32, period: U32): (r: seq<Timer>)
    requires CUSTOM <= eventId < CUSTOM + |timers|
    ensures |r| == |timers|
    ensures r[eventId - CUSTOM] == Timer(period, 0, true)
    ensures forall i :: 0 <= i < |r| && i != eventId - CUSTOM ==> r[i] == timers[i]
  {
    timers[eventId - CUSTOM := Timer(period, 0, true)]
  }

  /**
   * mtmr_start_timer(hsm, event_id, period_msecs) on the machine's timer
   * array. The source does not check the index, so an event id outside the
   * timer range is excluded here.
   */
  method StartTimer(timers: array<Timer>, eventId: U32, period: U32) returns (rc: int)
    requires CUSTOM <= eventId < CUSTOM + timers.Length
    modifies timers
    ensures rc == 0
    ensures timers[..] == Arm(old(timers[..]), eventId, period)
  {
    var idx := eventId - CUSTOM;
    timers[idx] := timers[idx].(period := period);
    timers[idx] := timers[idx].(value := 0);
    timers[idx] := timers[idx].(active := true);
    rc := 0;
  }

  /** `timer->value += passed_msecs` on a uint32_t. */
  function Advance(t: Timer, passed: U32): (r: Timer)
    ensures r.period == t.period && r.active == t.active
    ensures t.value + passed < WORD ==> r.value == t.value + passed
    ensures t.value + passed >= WORD ==> r.value == t.value + passed - WORD
  {
    t.(value := (t.value + passed) % WORD)
  }

  /**
   * A timer fires once its value has reached its period; a timer armed with
   * period 0 has expired from the start.
   */
  predicate Expired(t: Timer): (r: bool)
    ensures t.period == 0 ==> r
  {
    t.value >= t.period
  }

  /**
   * When a tick of `passed` milliseconds makes a timer expire: once the
   * elapsed total reaches the period, as long as that total fits in a
   * uint32_t. A total that wraps is compared only by what is left after the
   * wrap, so the timer may miss its period on that tick.
   */
  lemma ExpiresWhenDue(t: Timer, passed: U32)
    ensures t.value + passed < WORD ==> (Expired(Advance(t, passed)) <==> t.period <= t.value + passed)
    ensures t.value + passed >= WORD ==> (Expired(Advance(t, passed)) <==> t.period <= t.value + passed - WORD)
    ensures t.period == 0 ==> Expired(Advance(t, passed))
  {
  }
}
