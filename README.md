# libmbb hierarchical state machines, deferred-event queue and timers

libmbb ("micro building blocks") is a small C library for embedded programs.
This project models its core in Dafny and proves what that core does:

- the hierarchical state machine engine of `mbb/hsm.c`:
  - entering, leaving and transitioning between nested states;
  - routing an event up from the current leaf;
  - deferring events in a fixed-size queue and replaying them after each dispatch;
- the ring buffer `MQUE_*` of `mbb/queue.h` that holds the deferred events;
- the one-shot millisecond timers of `mbb/timer.c`.

## How the model is built

- **States** are indices into a parent table (`seq<Option<StateId>>`).
  `None` plays the part of NULL. `ValidTree` requires every parent to have a
  smaller index than its children. The tree is therefore acyclic, and every
  walk up a parent chain terminates.
- **Handlers.** A state's event processing function is a total function
  `(context, state, event) -> Reaction`. A reaction gives:
  - the state the function returns (`None` for NULL);
  - the new context;
  - the calls back into the machine the handler makes, in order:
    `mhsm_dispatch_event` (always deferred while a transition is running) and
    `mhsm_start_timer`.
- **`Engine`** states every operation of `hsm.c` as a function on a
  `Snapshot`. A snapshot holds:
  - the fields of `mhsm_hsm_t`;
  - the timer array in the context;
  - the `current_substate` link of every state;
  - a log of every handler call.

  The recursion between `_transition` and `_enter_state` is bounded by a
  fuel argument.
- **`Hsm.Machine`** is the C struct as a class. It has the deferred queue
  (a `Queues.Queue`), the timer array and the link array. Every method
  (`_transition`, `_enter_state` with its three loops, `_dispatch_event`,
  `mhsm_dispatch_event_arg` with its replay loop, ...) is proved to leave the
  machine in exactly the state the Engine function of the same name computes.
- **`EngineFacts`** proves what those functions mean:
  - which states get EXIT and ENTRY, and in which order;
  - that the least common ancestor is neither exited nor entered;
  - that the initial descent is a chain of INITIAL transitions;
  - how an event is routed up the chain;
  - that deferred events are replayed in FIFO order.
- **`Timers`** models `mtmr_initialise_timers` and `mtmr_increment_timers`
  as methods on the machine, proved against the functions `Tick` and
  `TickFixed`.
- **Scenarios** (`Scenarios`, `TimerFacts`) cover:
  - the test in `tests/test_hsm.c`;
  - the state tree of the pelican crossing in `examples/pelican.c`;
  - the queue test in `tests/test_queue.c`, as `Queues.FifoExample`;
  - a timer whose own timeout handler restarts it.

## Model

| member | source | states |
|---|---|---|
| HsmTypes.DefineState | mbb/hsm.h:18-26 | defining a state with a parent gives it the next index and a NULL `current_substate` link; the tree stays valid and the states already defined are unchanged |
| Queues.Queue.constructor | mbb/queue.h:37-43 | the storage of a queue is an array of exactly `capacity` elements |
| Queues.Queue.Initialise | mbb/queue.h:49-53 | `first` is 0, `last` is -1 and `count` is 0, and the queue holds no elements |
| Queues.Queue.Capacity | mbb/queue.h:45 | the capacity is the length of the data array |
| Queues.Queue.Length | mbb/queue.h:55 | the count is the number of queued elements, never more than the capacity |
| Queues.Queue.IsFull | mbb/queue.h:57 | full exactly when the number of elements equals the capacity |
| Queues.Queue.IsEmpty | mbb/queue.h:59 | empty exactly when no element is queued |
| Queues.Queue.Head | mbb/queue.h:68 | on a non-empty queue, the oldest element |
| Queues.Queue.Enqueue | mbb/queue.h:61-66 | a full queue is left unchanged; otherwise `last` advances modulo the capacity, the element is stored there and appended at the back, and `first` is kept |
| Queues.Queue.Dequeue | mbb/queue.h:70-74 | an empty queue is left unchanged; otherwise the oldest element is dropped and `first` advances modulo the capacity; the stored data is not written |
| Queues.EnqueueOneToFive | tests/test_queue.c:15-18 | enqueueing 1..5 into an empty queue of five leaves exactly [1,2,3,4,5] queued |
| Queues.DequeueFive | tests/test_queue.c:22-31 | five rounds of head then dequeue return 1,2,3,4,5 in order and leave the queue empty |
| Queues.FifoExample | tests/test_queue.c:5-36 | a new queue of five is empty; after five enqueues it is full; its heads come out in FIFO order; afterwards it is empty again |
| Ancestry.Ancestors | mbb/hsm.h:64-74 | a state's chain of parents, nearest first: every entry has a smaller index and the chain strictly decreases; it is empty exactly for a root state, and otherwise starts with the parent |
| Ancestry.IsStrictAncestor | mbb/hsm.c:295-302 | the walk up the parent chain finds only states with smaller indices |
| Ancestry.StrictAncestorIffInChain | mbb/hsm.c:295-302 | the walk returns true exactly when the state is in the ancestor chain |
| Ancestry.IsAncestor | mbb/hsm.c:286-303 | false for a NULL target, true for a NULL ancestor, otherwise true iff the ancestor is strictly above the target; never true of a state and itself |
| Ancestry.IsIn | mbb/hsm.c:305-308 | true iff the given state is NULL, is the current state, or is one of its ancestors; NULL is above every state |
| Ancestry.LcaWalk | mbb/hsm.c:31-38 | the result is a common proper ancestor and no deeper common one exists; NULL only when the two chains are disjoint |
| Ancestry.Lca | mbb/hsm.c:26-39 | NULL for a NULL argument; otherwise the deepest state in both parents' chains, or NULL when the chains share no state |
| Ancestry.LcaSymmetric | mbb/hsm.c:26-39 | the least common ancestor does not depend on the order of its arguments |
| Ancestry.PathDown | mbb/hsm.c:126-128 | the path the entry loop walks: it ends at the target, starts at the child of `from`, and each state on it is the parent of the next |
| Ancestry.PathDownIncreasing | mbb/hsm.c:126-128 | the states of the path strictly increase, so none repeats |
| Ancestry.LinkPath | mbb/hsm.c:126-128 | every state on the path above the target is linked to its successor on the path, the walk stops at the child of `from`, and no other link changes |
| Ancestry.ClearLink | mbb/hsm.c:142-143 | clearing the link of the state just entered keeps the links further down the path |
| TimerTable.TimerCount | mbb/timer.h:13 | the number of timers is the last timer event minus CUSTOM plus one, computed in uint32_t: with the last event at or above CUSTOM the last timer belongs to exactly that event; below CUSTOM - 1 the count wraps to more than 2^32 - 4 |
| TimerTable.Arm | mbb/timer.c:55-59 | the timer of the event gets the period, value 0 and the active flag; all other timers are unchanged |
| TimerTable.StartTimer | mbb/timer.c:52-62 | mtmr_start_timer on the array: returns 0 and arms exactly the event's timer |
| TimerTable.Advance | mbb/timer.c:41 | the value grows by the elapsed milliseconds modulo 2^32, like a uint32_t; period and flag are unchanged |
| TimerTable.Expired | mbb/timer.c:42 | the expiry test `value >= period`; a timer armed with period 0 has expired at once |
| TimerTable.ExpiresWhenDue | mbb/timer.c:41-42 | after a tick a timer has expired exactly when the elapsed total reaches its period, while that total fits in 32 bits; a total that wraps is compared only by its remainder modulo 2^32; a period-0 timer expires on any tick |
| Engine.Enqueue | mbb/queue.h:61-66 | the deferred queue never exceeds its capacity and only grows at the back; the event is appended iff the queue was not full |
| Engine.Dequeue | mbb/queue.h:70-74 | a non-empty queue loses exactly its head; an empty one stays empty |
| Engine.DeferEventArg | mbb/hsm.c:171-188 | returns -1 and changes nothing iff the queue is full; otherwise returns 0 with the event appended |
| Engine.StartTimerCall | mbb/hsm.c:310-318 | -1 and no change without a callback, for any event id; otherwise 0 with the event's timer armed; the queue and log are untouched |
| Engine.Apply | mbb/hsm.c:249-252 | one `mhsm_dispatch_event` or `mhsm_start_timer` call made by a handler, which always runs inside a transition: the machine stays in its transition with the same current state and callback, the links and the log are unchanged, the queue only grows at its end, and only a start-timer call can change the timers |
| Engine.Perform | mbb/hsm.c:249-252 | a handler's calls in order: as Engine.Apply for each, so the links and the log are unchanged, the queue only grows at its end, and the timers are unchanged when no call starts a timer |
| Engine.LocalDispatch | mbb/hsm.c:43-68 | calls the state's handler once and logs it; the result is a defined state or NULL; never NULL for ENTRY, INITIAL or EXIT; current state and links are kept, and so are the timers when the handler starts none |
| Engine.TransitionLca | mbb/hsm.c:82-88 | `from` when it is an ancestor of the target; the target when that is an ancestor of `from`; otherwise `_find_least_common_ancestor`. The result lies on the way up from `from` and is the target or one of its ancestors |
| Engine.Transition | mbb/hsm.c:70-108 | a transition keeps the current state and in_transition, only appends to the queue and log, and ends in a defined state |
| Engine.ExitLoop | mbb/hsm.c:90-101 | same frame as Engine.Transition for the exit loop |
| Engine.EnterState | mbb/hsm.c:110-169 | same frame as Engine.Transition for entering a state |
| Engine.EntryLoop | mbb/hsm.c:130-144 | same frame as Engine.Transition for the entry loop |
| Engine.InitialLoop | mbb/hsm.c:146-168 | same frame as Engine.Transition for the initial descent |
| Engine.Redirect | mbb/hsm.c:95-98 | same frame as Engine.Transition for a transition started by a handler's EXIT or ENTRY result |
| Engine.Route | mbb/hsm.c:202-208 | routing keeps the current state and the links, only appends to the queue and the log, and selects a defined state or NULL |
| Engine.ProcessEvent | mbb/hsm.c:190-225 | processing one event keeps the frame and ends in a defined leaf |
| Engine.Replay | mbb/hsm.c:262-271 | the replay keeps in_transition and the callback and only appends to the log |
| Engine.ReplayRound | mbb/hsm.c:267-270 | one replay round keeps in_transition and the callback and only appends to the log |
| Engine.DispatchEventArg | mbb/hsm.c:241-274 | a completed dispatch leaves in_transition as it found it (cleared again when idle); the callback is kept and the log only grows |
| Hsm.Machine.constructor | mbb/hsm.h:55-61 | fresh storage: a deferred queue of the given capacity, the context's timer array, and every state's link NULL |
| Hsm.Machine.Initialise | mbb/hsm.c:227-234 | the queue is emptied; context and current state are set; in_transition and the callback are cleared; nothing else changes |
| Hsm.Machine.Context | mbb/hsm.c:276-279 | returns the context |
| Hsm.Machine.CurrentState | mbb/hsm.c:281-284 | returns the current state, a state of the machine's tree |
| Hsm.Machine.IsIn | mbb/hsm.c:305-308 | true iff the given state is NULL, is the current state, or is above it |
| Hsm.Machine.DeferEventArg | mbb/hsm.c:171-188 | the result code and the new machine state are exactly Engine.DeferEventArg's |
| Hsm.Machine.StartTimer | mbb/hsm.c:310-318 | the result code and the new machine state are exactly Engine.StartTimerCall's; without a callback any event id gives -1 |
| Hsm.Machine.LocalDispatch | mbb/hsm.c:43-68 | the returned state and the new machine state are exactly Engine.LocalDispatch's: the handler is called and its calls back into the machine are carried out in order |
| Hsm.Machine.PerformAction | mbb/hsm.c:249-252 | a dispatch from inside a handler is deferred; a timer start goes through the callback, as Engine.Apply says |
| Hsm.Machine.Transition | mbb/hsm.c:70-108 | the outcome and the new machine state are exactly Engine.Transition's |
| Hsm.Machine.ExitTowards | mbb/hsm.c:90-107 | the exit loop and what follows it end exactly as Engine.ExitLoop says |
| Hsm.Machine.EnterState | mbb/hsm.c:110-169 | the outcome and the new machine state are exactly Engine.EnterState's |
| Hsm.Machine.EnterPath | mbb/hsm.c:130-144 | the entry loop over the linked path ends exactly as Engine.EntryLoop says |
| Hsm.Machine.EnterOne | mbb/hsm.c:135-143 | one round of the entry loop: the handler result is Engine.LocalDispatch's; when the state is kept, the loop moves to the linked child and that link is cleared |
| Hsm.Machine.Unlink | mbb/hsm.c:143 | only the given state's link becomes NULL |
| Hsm.Machine.InitialDescent | mbb/hsm.c:146-168 | the initial-transition loop ends exactly as Engine.InitialLoop says |
| Hsm.Machine.DescentRound | mbb/hsm.c:151-165 | one round of that loop: either it finishes (an ENTRY redirect, INITIAL keeping the state, or no fuel left) with the machine exactly as Engine.InitialLoop ends, or it continues with one unit of fuel spent, still in the transition, from the INITIAL result, and Engine.InitialLoop from there ends as it would have from the start |
| Hsm.Machine.EnterAndStart | mbb/hsm.c:151-159 | ENTRY then INITIAL to one state: a redirecting ENTRY stops there; otherwise the rest of the descent is InitialLoop from the INITIAL result |
| Hsm.Machine.RedirectFrom | mbb/hsm.c:95-98 | a transition started from inside the exit or entry loop ends exactly as Engine.Redirect says |
| Hsm.Machine.ProcessEvent | mbb/hsm.c:190-225 | the outcome and the new machine state are exactly Engine.ProcessEvent's |
| Hsm.Machine.DispatchEventArg | mbb/hsm.c:241-274 | the result and the new machine state are exactly Engine.DispatchEventArg's |
| Hsm.Machine.ReplayDeferred | mbb/hsm.c:262-271 | the replay of the events queued at its start ends exactly as Engine.Replay says |
| Hsm.Machine.ReplayHead | mbb/hsm.c:267-270 | one replay round, as Engine.Replay takes one step |
| Hsm.Machine.DropHead | mbb/hsm.c:270 | only the head of the deferred queue is dropped |
| Hsm.Machine.DispatchEvent | mbb/hsm.c:236-239 | dispatching an id is dispatching that id with argument 0 |
| Timers.Reset | mbb/timer.c:15-21 | the first n timers are stopped with period and value 0; the rest are untouched |
| Timers.InitialiseTimers | mbb/timer.c:6-26 | -1 for a NULL machine; otherwise 0, the timers of the events CUSTOM..last are reset, the start-timer callback is installed, and nothing else changes |
| Timers.Tick | mbb/timer.c:37-47 | the increment loop keeps the callback and only appends to the log |
| Timers.TickFiredAscending | mbb/timer.c:37-47 | the timer events the loop dispatches belong to the timers it visits, each at most once, in ascending order |
| Timers.IncrementTimers | mbb/timer.c:28-50 | -1 for a NULL machine; otherwise 0, and the machine ends exactly as Timers.Tick over all timers says |
| Timers.TickSlot | mbb/timer.c:38-46 | one round of the increment loop, as Timers.Tick takes one step |
| Timers.AdvanceSlot | mbb/timer.c:41 | only the value of timer i advances, wrapping like a uint32_t |
| Timers.StopSlot | mbb/timer.c:44 | only timer i becomes inactive |
| Timers.FireSlot | mbb/timer.c:42-45 | an expired timer's event is dispatched; unless that ran out of fuel, the timer is then made inactive |
| Timers.TickFixed | mbb/timer.c:37-47 | the corrected increment loop keeps the callback and only appends to the log |
| Timers.TickFixedFiredAscending | mbb/timer.c:37-47 | the corrected loop, too, dispatches each visited timer's event at most once, in ascending order |
| Timers.IncrementTimersFixed | mbb/timer.c:28-50 | the corrected mtmr_increment_timers ends exactly as Timers.TickFixed says |
| Timers.TickSlotFixed | mbb/timer.c:38-46 | one round of the corrected loop, as Timers.TickFixed takes one step |
| Timers.FireSlotFixed | mbb/timer.c:42-45 | corrected: an expired timer is made inactive, then its event is dispatched |
| EngineFacts.ExitsFollowChain | mbb/hsm.c:90-101 | the states that get EXIT are a prefix of the chain up from `from` and stop just below the least common ancestor; all of it when that is NULL |
| EngineFacts.ChainDecreasing | mbb/hsm.c:100 | walking up the chain strictly decreases the state index |
| EngineFacts.LcaNeverExited | mbb/hsm.c:90 | the least common ancestor never gets EXIT; every exited state lies strictly below it |
| EngineFacts.KeepsState | mbb/hsm.c:94 | a state whose handler keeps its state on the event returns it and is logged with it |
| EngineFacts.ExitsLogged | mbb/hsm.c:90-101 | when the exited states keep their state on EXIT, the exit loop sends EXIT exactly to them, innermost first |
| EngineFacts.ExitLoopReaches | mbb/hsm.c:90-101 | when the states from `cur` up to `stop` keep their state on EXIT, the exit loop passes them and carries on from `stop` |
| EngineFacts.ExitLoopSteady | mbb/hsm.c:90-107 | when the exited states keep their state on EXIT, the exit loop finishes and then either stops at the target or enters it from the least common ancestor |
| EngineFacts.ExitRedirectLogged | mbb/hsm.c:90-101 | an EXIT handler that returns another state: the states below it got EXIT innermost first, its own EXIT is logged with the result, and the transition is abandoned for one from that state to the result (lines 95-98) |
| EngineFacts.EntriesLogged | mbb/hsm.c:130-144 | when the states passed keep their state on ENTRY, the entry loop sends ENTRY to each of them, outermost first, and clears their links |
| EngineFacts.EntryLoopReaches | mbb/hsm.c:130-144 | when the states at positions i up to m of the path keep their state on ENTRY, the entry loop passes them and carries on from position m |
| EngineFacts.InitialRound | mbb/hsm.c:147-166 | at a state whose ENTRY handler kept it, the descent settles when INITIAL keeps the state, stops without fuel, or goes on at INITIAL's result |
| EngineFacts.DescentStop | mbb/hsm.c:146-168 | the initial descent passes, changing no link and logging ENTRY then a different INITIAL result per state, to the state where it stops, and goes on from there; it stops only at an ENTRY that redirects, an INITIAL that keeps the state, or when the fuel is out |
| EngineFacts.DescentRedirects | mbb/hsm.c:151-156 | an ENTRY handler in the initial descent that returns another state abandons the descent for a transition from that state to the result |
| EngineFacts.InitialLoopKeepsLinks | mbb/hsm.c:146-168 | without redirection, the initial descent leaves the links alone |
| EngineFacts.InitialLoopSteady | mbb/hsm.c:146-168 | without redirection, a settled initial descent logs a chain of ENTRY then INITIAL per state, each INITIAL naming the next state, ending where INITIAL keeps the state |
| EngineFacts.EnterStateSteady | mbb/hsm.c:110-169 | when the states above the target keep their state on ENTRY, _enter_state is the entry loop followed by the initial descent |
| EngineFacts.EnteredLogged | mbb/hsm.c:126-144 | when the states above the target keep their state on ENTRY, they get ENTRY top first, and the links set on the way down are all cleared again |
| EngineFacts.ClearLinked | mbb/hsm.c:126-143 | the links the link loop sets are exactly the ones the entry loop clears, so the loops together only set the path's links to NULL |
| EngineFacts.EntryRedirectLogged | mbb/hsm.c:126-144 | an ENTRY handler above the target that returns another state: the states above it got ENTRY top first and had their links cleared, its own ENTRY is logged with the result, and _enter_state is abandoned for a transition from that state to the result (lines 137-140) |
| EngineFacts.TransitionLcaDeepest | mbb/hsm.c:82-88 | for two different states, the exits stop at the deepest state that both chains (each state with its ancestors) share, or at NULL when they share none; a state's transition to itself stops at its parent |
| EngineFacts.TransitionDecomposes | mbb/hsm.c:70-108 | when the exited and entered states keep their state, a transition is the exits to the least common ancestor, then either the end at the target (when the target is that ancestor) or the entries down to the target and the initial descent |
| EngineFacts.TransitionExits | mbb/hsm.c:82-105 | when the exited states keep their state, the log starts with EXIT to each of them, from `from` upwards. The exits are none when `from` is an ancestor of the target, and the states below the target when the target is an ancestor of `from`. When the target is the least common ancestor, the transition ends there with no other delivery and no link changed |
| EngineFacts.TransitionEnters | mbb/hsm.c:104-107 | when the target is not the least common ancestor and the passed states keep their state, the log is the exits, then ENTRY top-down to the states above the target, with their links cleared. Then the initial descent starts at the target. Without redirection, the descent changes no link and its log descends to the leaf |
| EngineFacts.RouteLog | mbb/hsm.c:202-208 | the event goes to every state from `cur` to the root, in that order. While the target is still the leaf, it becomes the first result that departs from both its state and the leaf, NULL included; a target already chosen is kept |
| EngineFacts.ProcessEventRoutes | mbb/hsm.c:197-224 | a non-INITIAL event goes to the leaf and each of its ancestors, in that order, and the target is the first departing result. Then a NULL target defers the event, the leaf as target leaves the machine in the leaf, and any other target starts a transition from the leaf |
| EngineFacts.DeferralDroppedWhenFull | mbb/hsm.c:211-219 | an event deferred while the queue is full is dropped: the queue after the event is the queue before it, and the machine stays in its leaf |
| EngineFacts.DispatchWhileBusy | mbb/hsm.c:249-252 | a dispatch during a transition only defers the event and reports success |
| EngineFacts.ReplayInOrder | mbb/hsm.c:262-271 | the replay loop processes the queued events in FIFO order, each from the leaf the previous one settled in |
| EngineFacts.PathFromRoot | mbb/hsm.c:198 | the path down from NULL to a state is its ancestor chain reversed, then the state |
| EngineFacts.InitialEntersFromRoot | mbb/hsm.c:197-199 | INITIAL skips routing. When the ancestors keep their state on ENTRY, ENTRY goes to each of them, root first, then the initial descent starts at the state |
| EngineFacts.DispatchReplaysQueue | mbb/hsm.c:254-273 | an idle dispatch processes the event, replays every queued event in order from the new leaf, and clears in_transition when all settle |
| Scenarios.TestConfigValid | tests/test_hsm.c:5-38 | the test's three states form a valid tree whose handlers keep their state on ENTRY and EXIT |
| Scenarios.InitialTransitionSettles | tests/test_hsm.c:40-50 | INITIAL to the machine in state_a enters and starts state_a, state_a1 and state_a11 in turn and settles in state_a11 |
| Scenarios.InitialTransition | tests/test_hsm.c:40-50 | the test's steps on a Machine leave the current state at state_a11 |
| Scenarios.PelicanChains | examples/pelican.c:65-75 | the ancestor chain of every state of the pelican crossing |
| Scenarios.PelicanRootsApart | examples/pelican.c:65-75 | operational and offline are unrelated roots with no common ancestor |
| Scenarios.PelicanAncestry | examples/pelican.c:65-75 | least common ancestors and is-in answers for pairs of pelican states |
| Scenarios.PelicanYellowTimeout | examples/pelican.c:234-235 | the yellow timeout exits cars_yellow and cars_enabled and enters peds_enabled from operational |
| Scenarios.PelicanSwitchOff | examples/pelican.c:153-154 | OFF from peds_walk exits it and all its ancestors, then enters offline from NULL |
| TimerFacts.TransitionKeepsTimers | mbb/hsm.c:70-108 | when no handler starts a timer, a transition leaves the timer table as it was |
| TimerFacts.ExitLoopKeepsTimers | mbb/hsm.c:90-107 | the same for the exit loop |
| TimerFacts.EnterStateKeepsTimers | mbb/hsm.c:110-169 | the same for _enter_state |
| TimerFacts.EntryLoopKeepsTimers | mbb/hsm.c:130-144 | the same for the entry loop |
| TimerFacts.InitialLoopKeepsTimers | mbb/hsm.c:146-168 | the same for the initial descent |
| TimerFacts.RedirectKeepsTimers | mbb/hsm.c:95-98 | the same for a redirected transition |
| TimerFacts.RouteKeepsTimers | mbb/hsm.c:202-208 | the same for routing an event up the chain |
| TimerFacts.ProcessEventKeepsTimers | mbb/hsm.c:190-225 | the same for processing one event |
| TimerFacts.ReplayKeepsTimers | mbb/hsm.c:262-271 | the same for the replay of deferred events |
| TimerFacts.ReplayRoundKeepsTimers | mbb/hsm.c:267-270 | the same for one replay round |
| TimerFacts.DispatchKeepsTimers | mbb/hsm.c:241-274 | when no handler starts a timer, a dispatch with all it triggers leaves the timer table as it was |
| TimerFacts.QuietTick | mbb/timer.c:37-47 | when no timer expires, a tick dispatches nothing and only advances the active timers, wrapping modulo 2^32 |
| TimerFacts.ExpiringExactly | mbb/timer.c:40-43 | the expiring ids are exactly the events of the visited timers that are active and reach their period once the time is added |
| TimerFacts.TickFires | mbb/timer.c:37-47 | when no handler starts a timer and no dispatch runs out of fuel: every active timer advances and stops when it reaches its period, inactive timers stay, and exactly the expiring timers' events are dispatched, in ascending order |
| TimerFacts.TickFixedFires | mbb/timer.c:37-47 | the corrected loop does the same to such a program |
| TimerFacts.FlashDispatch | examples/pelican.c:272-292 | a timeout handler that restarts its own timer leaves it armed with value 0 |
| TimerFacts.RearmLost | mbb/timer.c:43-44 | as written, a timer restarted by its own timeout handler ends the tick stopped |
| TimerFacts.RearmKept | mbb/timer.c:43-44 | corrected, the restarted timer ends the tick running |

## Left out

- Debug output: `MDBG_PRINT*`, state names, `debug.c` and the unit-test macros of `test.h`. None of it changes state.
- Other timer back-ends are not part of this model: `timer_ev.c` (libev), `timer_periodic.h`, `timer_common.h`. `types.h` only supplies `bool` and the fixed-width integers.
- The applications beyond their state trees are not modelled: the pelican crossing's lights and counters, `monostable.c`, `debugging.c`.
- Fuel: the recursion of `_transition` and `_enter_state` and the initial descent are bounded by a fuel argument. A run that would need more reports `OutOfFuel`. A transition chain the C code would follow forever, or until its stack overflows, is not modelled.
- Events sent internally (ENTRY, INITIAL, EXIT) carry argument 0. The C code leaves `event.arg` uninitialised.
- Handlers are total functions of context, state and event. They return a defined state, or NULL for any event but ENTRY, INITIAL and EXIT (see Engine.ValidReaction below), and do what a C handler does through the machine only as listed actions: dispatch (deferred, since a handler always runs inside a transition) and start-timer. A handler that calls other machine functions, or a handler with side effects outside the context, is not modelled.
- Engine.ValidReaction: requires a handler to return a defined state, never NULL, for ENTRY, INITIAL and EXIT. The C code accepts such a handler but does not handle the NULL. A NULL from EXIT (`mbb/hsm.c:94-97`) or ENTRY (`mbb/hsm.c:136-139`, `152-155`) reaches `_transition(hsm, x, NULL)`. A NULL from INITIAL (`mbb/hsm.c:159-165`) makes NULL the next `to`, so the loop calls `_local_dispatch(hsm, NULL, ...)` at `mbb/hsm.c:152`. A debug build dereferences `result->name` or `target->name` (`mbb/hsm.c:96`, `138`, `154`, `163`) and fails the `MDBG_ASSERT` of `_transition` or `_local_dispatch`. An `NDEBUG` build takes their early return (`mbb/hsm.c:75-77`, `45-47`), so the dispatch returns NULL and `current_state` becomes NULL at `mbb/hsm.c:259`. The model does not describe machines in that state.
- The other guards of `_enter_state` become preconditions: the `MDBG_ASSERT`s that `from` is an ancestor of `to` and that `to` is not NULL (`mbb/hsm.c:114-120`), and the plain `to == from` return (`mbb/hsm.c:122-123`). So do the NULL checks on the machine's own arguments. With handlers as Engine.ValidReaction requires, the engine never calls these functions with such arguments, so their early returns are not modelled as results.
- Engine.Transition: its own contract only keeps the frame. What it does is proved in EngineFacts.TransitionDecomposes, TransitionExits and TransitionEnters.
- Engine.ExitLoop, Engine.EnterState, Engine.EntryLoop, Engine.InitialLoop, Engine.Redirect: as for Engine.Transition, the behaviour is in the EngineFacts lemmas named after them.
- Engine.Route: its own contract is the frame. The routing order and the target selection are in EngineFacts.RouteLog and ProcessEventRoutes.
- Engine.ProcessEvent: its own contract is the frame. Its cases are in EngineFacts.ProcessEventRoutes and InitialEntersFromRoot.
- Engine.DispatchEventArg: its own contract is the frame. The busy case is in EngineFacts.DispatchWhileBusy, the idle case with the replay in DispatchReplaysQueue.
- Engine.Replay: its own contract is the frame. The order in which the queued events are processed is in EngineFacts.ReplayInOrder and DispatchReplaysQueue.
- Engine.ReplayRound: its own contract is the frame. What one round does is in EngineFacts.ReplayInOrder.
- EngineFacts.InitialLoopKeepsLinks, InitialLoopSteady: stated for programs whose handlers keep their state on every ENTRY and EXIT. TransitionEnters states its last clause, about the descent, only for such programs. The other log and transition lemmas only ask it of the states they pass. The redirecting cases are in ExitRedirectLogged, EntryRedirectLogged and DescentRedirects.
- The start-timer callback is a flag. The only callback the repository installs is `mtmr_start_timer`.
- Hsm.Machine.StartTimer: with the callback installed, requires the event to have a timer. `mtmr_start_timer` writes `timers[event_id - CUSTOM]` without a check, so an out-of-range id is undefined behaviour in C. Without the callback every id is accepted and gives -1.
- Engine.ValidReaction: a handler may start only timers the context has, even while no callback is installed and C would return -1 for any id. A handler is a fixed function of context, state and event and cannot see whether the callback is installed. With the callback installed, C would write outside the timer array.
- Timers.InitialiseTimers: requires `MTMR_NROF_TIMERS(last)` to be at most the number of timers in the context. Below CUSTOM - 1 the uint32_t count wraps (TimerTable.TimerCount) to more than 2^32 - 4, and the C loop writes far past the array.
- Timers.IncrementTimers: the same requirement as Timers.InitialiseTimers.
- The context is a type parameter, with the timer array beside it. The C code overlays the timer array on the first bytes of the context.
- Timers.Tick, Timers.TickFixed: their own contracts are the frame. The order of the dispatched events is in TickFiredAscending and TickFixedFiredAscending, and the closed form of a tick in TimerFacts.TickFires, TickFixedFires and QuietTick.
- TimerFacts.TickFires, TickFixedFires: stated for programs whose handlers start no timer, and for ticks in which no dispatch runs out of fuel. A handler that restarts its own timer is covered by the scenario of RearmLost and RearmKept.

## Findings

| source | as written | input that shows it | evidently intended | confidence | as-written member | corrected member |
|---|---|---|---|---|---|---|
| mbb/timer.c:43-44 | `mtmr_increment_timers` dispatches the timeout event and only then sets `active = 0`. A timer that the event's own handler restarted with `mhsm_start_timer` is stopped again. | One root state whose handler restarts timer 0 for 5 ms on its timeout. Timer 0 is armed for 5 ms with 4 ms elapsed, and the tick is 1 ms. | Stop the timer before dispatching, as `mbb/timer_ev.c:29-30` does. Periodic re-arming from the timeout handler then works, as `examples/pelican.c:287` and `:307` rely on. | not executed | TimerFacts.RearmLost (with Timers.Tick, Timers.IncrementTimers) | TimerFacts.RearmKept (with Timers.TickFixed, Timers.IncrementTimersFixed) |
