/**
 * The data types and event identifiers that mbb/hsm.h declares: the event
 * record, the reserved event ids, the default length of the deferred-event
 * queue and the state definitions a program makes with MHSM_DEFINE_STATE.
 */
module HsmTypes {

  datatype Option<T> = None | Some(value: T)

  /** C's uint32_t and int32_t. */
  type U32 = x: int | 0 <= x < 0x1_0000_0000
  type I32 = x: int | -0x8000_0000 <= x < 0x8000_0000

  /** The reserved event ids; CUSTOM is the first id an application may use. */
  const ENTRY: U32 := 0
  const INITIAL: U32 := 1
  const DO: U32 := 2
  const EXIT: U32 := 3
  const CUSTOM: U32 := 4

  /** MHSM_EVENT_QUEUE_LENGTH when the program does not predefine it. */
  const DEFAULT_QUEUE_LENGTH: nat := 5

  /** mhsm_event_t: an id and a signed argument. */
  datatype Event = Event(id: U32, arg: I32)

  /**
   * The events the engine itself sends to a state. The source leaves their
   * argument uninitialised; the model passes 0.
   */
  const EntryEvent := Event(ENTRY, 0)
  const InitialEvent := Event(INITIAL, 0)
  const ExitEvent := Event(EXIT, 0)

  /** A state is its index in the table of defined states. */
  type StateId = nat

  /**
   * The parent table of all defined states. MHSM_DEFINE_STATE takes the
   * address of the parent, so a parent is always defined before its
   * children: every parent index is smaller than its child's. This is what
   * makes the parent graph a forest.
   */
  predicate ValidTree(parents: seq<Option<StateId>>)
  {
    forall s :: 0 <= s < |parents| && parents[s].Some? ==> parents[s].value < s
  }

  /**
   * MHSM_DEFINE_STATE(STATE, PARENT): the next state of the table, with the
   * given parent (NULL for a root) and a NULL current_substate link. The
   * handler of every state is the machine's handler function.
   */
  function DefineState(parents: seq<Option<StateId>>, links: seq<Option<StateId>>, parent: Option<StateId>)
    : (r: (seq<Option<StateId>>, seq<Option<StateId>>, StateId))
    requires ValidTree(parents) && |links| == |parents|
    requires parent.Some? ==> parent.value < |parents|
    ensures ValidTree(r.0) && |r.1| == |r.0| == |parents| + 1
    ensures r.2 == |parents| && r.0[r.2] == parent && r.1[r.2] == None
    ensures r.0[..|parents|] == parents && r.1[..|parents|] == links
  {
    (parents + [parent], links + [None], |parents|)
  }
}
