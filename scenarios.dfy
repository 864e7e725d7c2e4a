/**
 * Concrete machines from the repository: the three nested states of
 * tests/test_hsm.c and the state tree of the pelican crossing in
 * examples/pelican.c.
 */
module Scenarios {
  import opened HsmTypes
  import opened Ancestry
  import opened Engine
  import opened Hsm
  import opened EngineFacts

  // ---------------------------------------------------------------------
  // tests/test_hsm.c: state_a, state_a1 below it, state_a11 below that

  const A: StateId := 0
  const A1: StateId := 1
  const A11: StateId := 2

  const TestParents: seq<Option<StateId>> := [None, Some(A), Some(A1)]

  /**
   * The handlers of the test: INITIAL in state_a goes to state_a1, INITIAL
   * in state_a1 goes to state_a11; every other event keeps the state. The
   * context is unused.
   */
  function TestHandler(c: int, s: StateId, e: Event): Reaction<int>
  {
    var next := if e.id == INITIAL && s == A then A1 else if e.id == INITIAL && s == A1 then A11 else s;
    Reaction(Some(next), c, [])
  }

  const TestConfig: Config<int> := Config(TestParents, TestHandler, DEFAULT_QUEUE_LENGTH, 0)

  /** The machine right after mhsm_initialise(&hsm, NULL, &state_a). */
  const TestStart: Snapshot<int> := Snapshot(0, A, [], false, false, [], [None, None, None], [])

  lemma TestConfigValid()
    ensures ValidConfig(TestConfig) && NoRedirect(TestConfig)
  {
  }

  /**
   * test_initial_transition: dispatching INITIAL to the machine in state_a
   * enters state_a, takes its initial transition to state_a1 and that one's
   * to state_a11, where the machine settles; every handler is called in
   * that order and nothing is left queued.
   */
  lemma InitialTransitionSettles()
    ensures ValidConfig(TestConfig)
    ensures DispatchEventArg(TestConfig, 2, InitialEvent, TestStart) ==
      (true, TestStart.(current := A11, trace := [
        Delivery(A, EntryEvent, Some(A)), Delivery(A, InitialEvent, Some(A1)),
        Delivery(A1, EntryEvent, Some(A1)), Delivery(A1, InitialEvent, Some(A11)),
        Delivery(A11, EntryEvent, Some(A11)), Delivery(A11, InitialEvent, Some(A11))]))
  {
    TestConfigValid();
    var busy := TestStart.(inTransition := true);
    var d0 := Delivery(A, EntryEvent, Some(A));
    var d1 := Delivery(A, InitialEvent, Some(A1));
    var d2 := Delivery(A1, EntryEvent, Some(A1));
    var d3 := Delivery(A1, InitialEvent, Some(A11));
    var d4 := Delivery(A11, EntryEvent, Some(A11));
    var d5 := Delivery(A11, InitialEvent, Some(A11));
    assert PathDown(TestParents, None, A) == [A];
    assert InitialLoop(TestConfig, 0, A11, busy.(trace := [d0, d1, d2, d3])) == Done(A11, busy.(trace := [d0, d1, d2, d3, d4, d5]));
    assert InitialLoop(TestConfig, 1, A1, busy.(trace := [d0, d1])) == Done(A11, busy.(trace := [d0, d1, d2, d3, d4, d5]));
    assert InitialLoop(TestConfig, 2, A, busy) == Done(A11, busy.(trace := [d0, d1, d2, d3, d4, d5]));
    assert ProcessEvent(TestConfig, 2, A, InitialEvent, busy) == Done(A11, busy.(trace := [d0, d1, d2, d3, d4, d5]));
  }

  /**
   * test_initial_transition on the machine itself: define the three
   * states, initialise the machine in state_a, dispatch INITIAL, and the
   * current state is state_a11.
   */
  method InitialTransition() returns (current: StateId)
    ensures current == A11
  {
    var hsm := new Machine<int>(TestParents, TestHandler, DEFAULT_QUEUE_LENGTH, 0, 0);
    TestConfigValid();
    hsm.Initialise(0, A);
    assert hsm.Snap() == TestStart;
    InitialTransitionSettles();
    var ok := hsm.DispatchEvent(2, INITIAL);
    current := hsm.CurrentState();
  }

  // ---------------------------------------------------------------------
  // examples/pelican.c: the state tree of the pelican crossing

  const Operational: StateId := 0
  const CarsEnabled: StateId := 1
  const CarsGreen: StateId := 2
  const CarsGreenNoPed: StateId := 3
  const CarsGreenInt: StateId := 4
  const CarsGreenPedWait: StateId := 5
  const CarsYellow: StateId := 6
  const PedsEnabled: StateId := 7
  const PedsWalk: StateId := 8
  const PedsFlash: StateId := 9
  const Offline: StateId := 10

  const PelicanParents: seq<Option<StateId>> := [
    None, Some(Operational), Some(CarsEnabled), Some(CarsGreen), Some(CarsGreen), Some(CarsGreen),
    Some(CarsEnabled), Some(Operational), Some(PedsEnabled), Some(PedsEnabled), None]

  /** The ancestor chains of the pedestrian states and the roots, nearest first. */
  lemma PelicanPedsChains()
    ensures ValidTree(PelicanParents)
    ensures Ancestors(PelicanParents, Operational) == [] && Ancestors(PelicanParents, Offline) == []
    ensures Ancestors(PelicanParents, PedsEnabled) == [Operational]
    ensures Ancestors(PelicanParents, PedsWalk) == [PedsEnabled, Operational]
    ensures Ancestors(PelicanParents, PedsFlash) == [PedsEnabled, Operational]
  {
    assert Ancestors(PelicanParents, PedsEnabled) == [Operational];
  }

  /** The ancestor chains of the car states, nearest first. */
  lemma PelicanCarsChains()
    ensures ValidTree(PelicanParents)
    ensures Ancestors(PelicanParents, CarsEnabled) == [Operational]
    ensures Ancestors(PelicanParents, CarsGreen) == [CarsEnabled, Operational]
    ensures Ancestors(PelicanParents, CarsYellow) == [CarsEnabled, Operational]
    ensures Ancestors(PelicanParents, CarsGreenInt) == [CarsGreen, CarsEnabled, Operational]
    ensures Ancestors(PelicanParents, CarsGreenPedWait) == [CarsGreen, CarsEnabled, Operational]
    ensures Ancestors(PelicanParents, CarsGreenNoPed) == [CarsGreen, CarsEnabled, Operational]
  {
    assert Ancestors(PelicanParents, CarsEnabled) == [Operational];
    assert Ancestors(PelicanParents, CarsGreen) == [CarsEnabled, Operational];
  }

  lemma PelicanChains()
    ensures ValidTree(PelicanParents)
    ensures Ancestors(PelicanParents, Operational) == [] && Ancestors(PelicanParents, Offline) == []
    ensures Ancestors(PelicanParents, CarsEnabled) == [Operational]
    ensures Ancestors(PelicanParents, PedsEnabled) == [Operational]
    ensures Ancestors(PelicanParents, CarsGreen) == [CarsEnabled, Operational]
    ensures Ancestors(PelicanParents, CarsYellow) == [CarsEnabled, Operational]
    ensures Ancestors(PelicanParents, PedsWalk) == [PedsEnabled, Operational]
    ensures Ancestors(PelicanParents, PedsFlash) == [PedsEnabled, Operational]
    ensures Ancestors(PelicanParents, CarsGreenInt) == [CarsGreen, CarsEnabled, Operational]
    ensures Ancestors(PelicanParents, CarsGreenPedWait) == [CarsGreen, CarsEnabled, Operational]
    ensures Ancestors(PelicanParents, CarsGreenNoPed) == [CarsGreen, CarsEnabled, Operational]
  {
    PelicanPedsChains();
    PelicanCarsChains();
  }

  /** operational and offline are separate roots: they share no ancestor. */
  lemma PelicanRootsApart()
    ensures ValidTree(PelicanParents)
    ensures Lca(PelicanParents, Some(Operational), Some(Offline)) == None
    ensures !IsAncestor(PelicanParents, Some(Operational), Some(Offline))
  {
    PelicanChains();
  }

  /**
   * The least common ancestor of two pelican states is the deepest state
   * above both; a state is in each of its ancestors and in no other state.
   */
  lemma PelicanAncestry()
    ensures ValidTree(PelicanParents)
    ensures Lca(PelicanParents, Some(CarsGreenNoPed), Some(PedsFlash)) == Some(Operational)
    ensures Lca(PelicanParents, Some(CarsGreenInt), Some(CarsGreenPedWait)) == Some(CarsGreen)
    ensures TransitionLca(PelicanParents, CarsGreenPedWait, CarsYellow) == Some(CarsEnabled)
    ensures IsIn(PelicanParents, CarsGreenInt, Some(CarsEnabled)) && !IsIn(PelicanParents, PedsWalk, Some(CarsEnabled))
  {
    PelicanChains();
  }

  /**
   * The yellow timeout in cars_yellow goes to peds_enabled: the transition
   * exits cars_yellow and cars_enabled, keeps operational, and enters
   * peds_enabled itself, whose initial transition then leads on.
   */
  lemma PelicanYellowTimeout()
    ensures ValidTree(PelicanParents)
    ensures TransitionLca(PelicanParents, CarsYellow, PedsEnabled) == Some(Operational)
    ensures Exits(PelicanParents, Some(CarsYellow), Some(Operational)) == [CarsYellow, CarsEnabled]
    ensures Above(PelicanParents, Some(Operational), PedsEnabled) == []
  {
    PelicanChains();
    assert PathDown(PelicanParents, Some(Operational), PedsEnabled) == [PedsEnabled];
  }

  /**
   * Switching off in peds_walk goes to offline, another root: the
   * transition exits peds_walk, peds_enabled and operational, every state
   * of the chain, and enters offline.
   */
  lemma PelicanSwitchOff()
    ensures ValidTree(PelicanParents)
    ensures TransitionLca(PelicanParents, PedsWalk, Offline) == None
    ensures Exits(PelicanParents, Some(PedsWalk), None) == [PedsWalk, PedsEnabled, Operational]
    ensures Above(PelicanParents, None, Offline) == []
  {
    PelicanChains();
    assert PathDown(PelicanParents, None, Offline) == [Offline];
  }
}
