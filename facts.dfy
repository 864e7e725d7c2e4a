/**
 * What the engine of mbb/hsm.c guarantees, stated over the functions of
 * Engine: the order in which a transition exits and enters states, the
 * links it leaves behind, how an event is routed from the leaf to the
 * root, and that the replay loop processes the deferred events in the
 * order they were queued.
 *
 * Where the handlers of the states a transition passes keep their state on
 * ENTRY and EXIT, a transition is the textbook one: EXIT from the source up
 * to the least common ancestor, ENTRY from below it down to the target, then
 * the initial descent. ExitRedirectLogged, EntryRedirectLogged and
 * DescentRedirects cover a handler that returns another state instead.
 */
module EngineFacts {
  import opened HsmTypes
  import opened Ancestry
  import opened Engine

  /** ENTRY and EXIT handlers return their own state: no transition is redirected. */
  ghost predicate NoRedirect<C(!new)>(cfg: Config<C>)
  {
    forall c, s: StateId, e: Event :: s < |cfg.parents| && (e.id == ENTRY || e.id == EXIT) ==> cfg.handler(c, s, e).next == Some(s)
  }

  /** `cur` followed by its ancestors: the states an event is routed through, leaf first. */
  function Chain(parents: seq<Option<StateId>>, cur: Option<StateId>): (r: seq<StateId>)
    requires ValidTree(parents) && (cur.Some? ==> cur.value < |parents|)
    ensures cur.None? <==> r == []
    ensures cur.Some? ==> r[0] == cur.value
  {
    if cur.None? then [] else [cur.value] + Ancestors(parents, cur.value)
  }

  /** The states the exit loop leaves, from `cur` up to, not including, `lca`. */
  function Exits(parents: seq<Option<StateId>>, cur: Option<StateId>, lca: Option<StateId>): seq<StateId>
    requires ValidTree(parents) && (cur.Some? ==> cur.value < |parents|)
    requires OnTheWayUp(parents, cur, lca)
    decreases Rank(cur)
  {
    if cur == lca then [] else [cur.value] + Exits(parents, parents[cur.value], lca)
  }

  /**
   * The states exited are the chain of `cur` up to the least common
   * ancestor: all of it when there is none, otherwise exactly the states
   * before it, so the ancestor itself is never exited.
   */
  lemma {:induction false} ExitsFollowChain(parents: seq<Option<StateId>>, cur: Option<StateId>, lca: Option<StateId>)
    requires ValidTree(parents) && (cur.Some? ==> cur.value < |parents|)
    requires OnTheWayUp(parents, cur, lca)
    ensures var ex, ch := Exits(parents, cur, lca), Chain(parents, cur);
      && ex <= ch
      && (lca.None? ==> ex == ch)
      && (lca.Some? ==> |ex| < |ch| && ch[|ex|] == lca.value)
    decreases Rank(cur)
  {
    if cur != lca {
      var up := parents[cur.value];
      var ex', ch' := Exits(parents, up, lca), Chain(parents, up);
      assert Chain(parents, cur) == [cur.value] + ch';
      assert Exits(parents, cur, lca) == [cur.value] + ex';
      ExitsFollowChain(parents, up, lca);
      if lca.Some? {
        assert ([cur.value] + ch')[|ex'| + 1] == ch'[|ex'|];
      }
    }
  }

  /** The chain of a state goes strictly upwards: each state's index is below the one before it. */
  lemma ChainDecreasing(parents: seq<Option<StateId>>, cur: Option<StateId>)
    requires ValidTree(parents) && (cur.Some? ==> cur.value < |parents|)
    ensures var ch := Chain(parents, cur);
      forall i, j :: 0 <= i < j < |ch| ==> ch[j] < ch[i]
  {
    if cur.Some? {
      var ch := Chain(parents, cur);
      var up := Ancestors(parents, cur.value);
      forall i, j | 0 <= i < j < |ch|
        ensures ch[j] < ch[i]
      {
        assert ch[j] == up[j - 1];
        if 0 < i {
          assert ch[i] == up[i - 1];
        }
      }
    }
  }

  /**
   * The least common ancestor is never exited: every state the exit loop
   * leaves lies strictly below it.
   */
  lemma LcaNeverExited(parents: seq<Option<StateId>>, cur: Option<StateId>, lca: StateId)
    requires ValidTree(parents) && (cur.Some? ==> cur.value < |parents|)
    requires OnTheWayUp(parents, cur, Some(lca))
    ensures forall k :: 0 <= k < |Exits(parents, cur, Some(lca))| ==> lca < Exits(parents, cur, Some(lca))[k]
    ensures lca !in Exits(parents, cur, Some(lca))
  {
    var ex, ch := Exits(parents, cur, Some(lca)), Chain(parents, cur);
    ExitsFollowChain(parents, cur, Some(lca));
    ChainDecreasing(parents, cur);
    forall k | 0 <= k < |ex|
      ensures lca < ex[k]
    {
      assert ex[k] == ch[k] && ch[|ex|] == lca;
    }
  }

  /** The log of EXIT deliveries to `xs`, each handler keeping its state. */
  function ExitDeliveries(xs: seq<StateId>): (r: seq<Delivery>)
    ensures |r| == |xs|
    ensures forall k :: 0 <= k < |xs| ==> r[k] == Delivery(xs[k], ExitEvent, Some(xs[k]))
  {
    seq(|xs|, k requires 0 <= k < |xs| => Delivery(xs[k], ExitEvent, Some(xs[k])))
  }

  lemma ExitDeliveriesCons(before: seq<Delivery>, x: StateId, rest: seq<StateId>)
    ensures before + [Delivery(x, ExitEvent, Some(x))] + ExitDeliveries(rest) == before + ExitDeliveries([x] + rest)
  {
    assert ExitDeliveries([x] + rest) == [Delivery(x, ExitEvent, Some(x))] + ExitDeliveries(rest);
  }

  /** The log of ENTRY deliveries to `xs`, each handler keeping its state. */
  function EntryDeliveries(xs: seq<StateId>): (r: seq<Delivery>)
    ensures |r| == |xs|
    ensures forall k :: 0 <= k < |xs| ==> r[k] == Delivery(xs[k], EntryEvent, Some(xs[k]))
  {
    seq(|xs|, k requires 0 <= k < |xs| => Delivery(xs[k], EntryEvent, Some(xs[k])))
  }

  /** `links` with the current_substate link of every state in `xs` cleared. */
  function Clear(links: seq<Option<StateId>>, xs: seq<StateId>): (r: seq<Option<StateId>>)
    ensures |r| == |links|
    ensures forall x :: 0 <= x < |links| ==> r[x] == if x in xs then None else links[x]
  {
    seq(|links|, x requires 0 <= x < |links| => if x in xs then None else links[x])
  }

  /**
   * The log from position i on is the initial descent from `start`: ENTRY
   * to a state, then INITIAL to it; a different result is descended into
   * next, and the log ends at the `leaf` whose INITIAL handler returned
   * itself.
   */
  ghost predicate Descent(start: StateId, leaf: StateId, log: seq<Delivery>, i: nat)
    decreases |log| - i
  {
    && i + 2 <= |log|
    && log[i] == Delivery(start, EntryEvent, Some(start))
    && log[i + 1].state == start && log[i + 1].event == InitialEvent && log[i + 1].result.Some?
    && if log[i + 1].result == Some(start) then |log| == i + 2 && leaf == start
       else Descent(log[i + 1].result.value, leaf, log, i + 2)
  }

  /** The handlers of the states `xs` keep their state on `e`, in every context. */
  ghost predicate Keeps<C(!new)>(cfg: Config<C>, xs: seq<StateId>, e: Event)
  {
    forall c, k :: 0 <= k < |xs| && xs[k] < |cfg.parents| ==> cfg.handler(c, xs[k], e).next == Some(xs[k])
  }

  lemma KeepsTail<C(!new)>(cfg: Config<C>, xs: seq<StateId>, e: Event)
    requires Keeps(cfg, xs, e) && xs != []
    ensures Keeps(cfg, xs[1..], e)
  {
    forall c, k | 0 <= k < |xs| - 1 && xs[1..][k] < |cfg.parents|
      ensures cfg.handler(c, xs[1..][k], e).next == Some(xs[1..][k])
    {
      assert xs[1..][k] == xs[k + 1];
    }
  }

  /** Without redirection every state keeps its state on ENTRY and EXIT. */
  lemma NoRedirectKeeps<C(!new)>(cfg: Config<C>, xs: seq<StateId>, e: Event)
    requires NoRedirect(cfg) && (e.id == ENTRY || e.id == EXIT)
    ensures Keeps(cfg, xs, e)
  {
  }

  /** A handler that keeps its state on `e` logs the call with that result. */
  lemma KeepsState<C(!new)>(cfg: Config<C>, xs: seq<StateId>, k: nat, e: Event, snap: Snapshot<C>)
    requires ValidConfig(cfg) && Keeps(cfg, xs, e) && Fits(cfg, snap) && snap.inTransition
    requires k < |xs| && xs[k] < |cfg.parents|
    ensures LocalDispatch(cfg, xs[k], e, snap).0 == Some(xs[k])
    ensures LocalDispatch(cfg, xs[k], e, snap).1.trace == snap.trace + [Delivery(xs[k], e, Some(xs[k]))]
  {
    assert cfg.handler(snap.context, xs[k], e).next == Some(xs[k]);
  }

  /** The snapshot after EXIT has been delivered to `cur` and up to, not including, `lca`. */
  ghost function AfterExits<C(!new)>(cfg: Config<C>, cur: Option<StateId>, lca: Option<StateId>, snap: Snapshot<C>): (r: Snapshot<C>)
    requires ValidConfig(cfg) && Fits(cfg, snap) && snap.inTransition
    requires cur.Some? ==> cur.value < |cfg.parents|
    requires OnTheWayUp(cfg.parents, cur, lca)
    ensures Fits(cfg, r) && r.inTransition && r.links == snap.links && snap.trace <= r.trace
    decreases Rank(cur)
  {
    if cur == lca then snap
    else AfterExits(cfg, cfg.parents[cur.value], lca, LocalDispatch(cfg, cur.value, ExitEvent, snap).1)
  }

  /**
   * When the exited states keep their state on EXIT, the exit loop sends
   * EXIT to them in order, bottom-up.
   */
  lemma {:induction false} ExitsLogged<C(!new)>(cfg: Config<C>, cur: Option<StateId>, lca: Option<StateId>, snap: Snapshot<C>)
    requires ValidConfig(cfg) && Fits(cfg, snap) && snap.inTransition
    requires cur.Some? ==> cur.value < |cfg.parents|
    requires OnTheWayUp(cfg.parents, cur, lca)
    requires Keeps(cfg, Exits(cfg.parents, cur, lca), ExitEvent)
    ensures AfterExits(cfg, cur, lca, snap).trace == snap.trace + ExitDeliveries(Exits(cfg.parents, cur, lca))
    decreases Rank(cur)
  {
    if cur != lca {
      var exits := Exits(cfg.parents, cur, lca);
      KeepsState(cfg, exits, 0, ExitEvent, snap);
      KeepsTail(cfg, exits, ExitEvent);
      var up := cfg.parents[cur.value];
      ExitsLogged(cfg, up, lca, LocalDispatch(cfg, cur.value, ExitEvent, snap).1);
      ExitDeliveriesCons(snap.trace, cur.value, exits[1..]);
    }
  }

  /**
   * When the states from `cur` up to, not including, `stop` keep their
   * state on EXIT, the exit loop passes them and carries on from `stop`.
   */
  lemma {:induction false} ExitLoopReaches<C(!new)>(cfg: Config<C>, fuel: nat, cur: Option<StateId>, stop: Option<StateId>, lca: Option<StateId>,
                                                      target: StateId, snap: Snapshot<C>)
    requires ValidConfig(cfg) && Fits(cfg, snap) && target < |cfg.parents| && snap.inTransition
    requires cur.Some? ==> cur.value < |cfg.parents|
    requires OnTheWayUp(cfg.parents, cur, lca) && OnTheWayUp(cfg.parents, cur, stop) && OnTheWayUp(cfg.parents, stop, lca)
    requires lca == Some(target) || IsAncestor(cfg.parents, lca, Some(target))
    requires Keeps(cfg, Exits(cfg.parents, cur, stop), ExitEvent)
    ensures ExitLoop(cfg, fuel, cur, lca, target, snap) == ExitLoop(cfg, fuel, stop, lca, target, AfterExits(cfg, cur, stop, snap))
    decreases Rank(cur)
  {
    if cur != stop {
      var exits := Exits(cfg.parents, cur, stop);
      KeepsState(cfg, exits, 0, ExitEvent, snap);
      KeepsTail(cfg, exits, ExitEvent);
      ExitLoopReaches(cfg, fuel, cfg.parents[cur.value], stop, lca, target, LocalDispatch(cfg, cur.value, ExitEvent, snap).1);
    }
  }

  /**
   * When the exited states keep their state on EXIT, the exit loop runs to
   * the least common ancestor, then finishes at the target or enters it
   * from there.
   */
  lemma ExitLoopSteady<C(!new)>(cfg: Config<C>, fuel: nat, cur: Option<StateId>, lca: Option<StateId>, target: StateId, snap: Snapshot<C>)
    requires ValidConfig(cfg) && Fits(cfg, snap) && target < |cfg.parents| && snap.inTransition
    requires cur.Some? ==> cur.value < |cfg.parents|
    requires OnTheWayUp(cfg.parents, cur, lca)
    requires lca == Some(target) || IsAncestor(cfg.parents, lca, Some(target))
    requires Keeps(cfg, Exits(cfg.parents, cur, lca), ExitEvent)
    ensures var mid := AfterExits(cfg, cur, lca, snap);
      ExitLoop(cfg, fuel, cur, lca, target, snap) ==
        if lca == Some(target) then Done(target, mid) else EnterState(cfg, fuel, lca, target, mid)
  {
    ExitLoopReaches(cfg, fuel, cur, lca, lca, target, snap);
  }

  /**
   * An EXIT handler that returns another state: the states below it have
   * been sent EXIT bottom-up and kept their state; the redirecting state's
   * EXIT is logged with its result, and the rest of the transition is
   * abandoned for a transition from that state to its result.
   */
  lemma ExitRedirectLogged<C(!new)>(cfg: Config<C>, fuel: nat, cur: Option<StateId>, r: StateId, lca: Option<StateId>,
                                    target: StateId, snap: Snapshot<C>)
    requires ValidConfig(cfg) && Fits(cfg, snap) && target < |cfg.parents| && snap.inTransition
    requires cur.Some? ==> cur.value < |cfg.parents|
    requires OnTheWayUp(cfg.parents, cur, lca) && OnTheWayUp(cfg.parents, cur, Some(r)) && OnTheWayUp(cfg.parents, Some(r), lca)
    requires Some(r) != lca
    requires lca == Some(target) || IsAncestor(cfg.parents, lca, Some(target))
    requires Keeps(cfg, Exits(cfg.parents, cur, Some(r)), ExitEvent)
    ensures var mid := AfterExits(cfg, cur, Some(r), snap);
      var (x, after) := LocalDispatch(cfg, r, ExitEvent, mid);
      && mid.trace == snap.trace + ExitDeliveries(Exits(cfg.parents, cur, Some(r)))
      && after.trace == mid.trace + [Delivery(r, ExitEvent, x)]
      && (x != Some(r) ==> ExitLoop(cfg, fuel, cur, lca, target, snap) == Redirect(cfg, fuel, r, x.value, after))
  {
    ExitsLogged(cfg, cur, Some(r), snap);
    ExitLoopReaches(cfg, fuel, cur, Some(r), lca, target, snap);
  }

  lemma EntryDeliveriesCons(before: seq<Delivery>, x: StateId, rest: seq<StateId>)
    ensures before + [Delivery(x, EntryEvent, Some(x))] + EntryDeliveries(rest) == before + EntryDeliveries([x] + rest)
  {
    assert EntryDeliveries([x] + rest) == [Delivery(x, EntryEvent, Some(x))] + EntryDeliveries(rest);
  }

  lemma ClearCons(links: seq<Option<StateId>>, x: StateId, rest: seq<StateId>)
    requires x < |links|
    ensures Clear(links[x := None], rest) == Clear(links, [x] + rest)
  {
  }

  /** The path _enter_state walks from below `from` down to the target, and the part of it above the target. */
  function Above(parents: seq<Option<StateId>>, from: Option<StateId>, target: StateId): (r: seq<StateId>)
    requires ValidTree(parents) && target < |parents|
    requires IsAncestor(parents, from, Some(target))
    ensures r == PathDown(parents, from, target)[..|PathDown(parents, from, target)| - 1]
  {
    var path := PathDown(parents, from, target);
    path[..|path| - 1]
  }

  /** The snapshot after the entry loop of _enter_state has run from position i of the path to position m. */
  ghost function AfterEntries<C(!new)>(cfg: Config<C>, from: Option<StateId>, target: StateId, i: nat, m: nat, snap: Snapshot<C>)
    : (r: Snapshot<C>)
    requires ValidConfig(cfg) && Fits(cfg, snap) && target < |cfg.parents| && snap.inTransition
    requires IsAncestor(cfg.parents, from, Some(target))
    requires i <= m < |PathDown(cfg.parents, from, target)|
    ensures Fits(cfg, r) && r.inTransition && snap.trace <= r.trace
    decreases m - i
  {
    var path := PathDown(cfg.parents, from, target);
    if i == m then snap
    else
      var snap' := LocalDispatch(cfg, path[i], EntryEvent, snap).1;
      AfterEntries(cfg, from, target, i + 1, m, snap'.(links := snap'.links[path[i] := None]))
  }

  /**
   * When the states at positions i up to m of the path keep their state on
   * ENTRY, the entry loop sends ENTRY to them, top-down, and clears their
   * links.
   */
  lemma {:induction false} EntriesLogged<C(!new)>(cfg: Config<C>, from: Option<StateId>, target: StateId, i: nat, m: nat, snap: Snapshot<C>)
    requires ValidConfig(cfg) && Fits(cfg, snap) && target < |cfg.parents| && snap.inTransition
    requires IsAncestor(cfg.parents, from, Some(target))
    requires i <= m < |PathDown(cfg.parents, from, target)|
    requires Keeps(cfg, PathDown(cfg.parents, from, target)[i..m], EntryEvent)
    ensures var passed := PathDown(cfg.parents, from, target)[i..m];
      var r := AfterEntries(cfg, from, target, i, m, snap);
      && r.trace == snap.trace + EntryDeliveries(passed)
      && r.links == Clear(snap.links, passed)
    decreases m - i
  {
    var path := PathDown(cfg.parents, from, target);
    var passed := path[i..m];
    if i == m {
      assert passed == [];
      assert Clear(snap.links, []) == snap.links;
    } else {
      var snap' := LocalDispatch(cfg, path[i], EntryEvent, snap).1;
      KeepsState(cfg, passed, 0, EntryEvent, snap);
      KeepsTail(cfg, passed, EntryEvent);
      assert passed[1..] == path[i + 1..m];
      EntriesLogged(cfg, from, target, i + 1, m, snap'.(links := snap'.links[path[i] := None]));
      assert passed == [path[i]] + path[i + 1..m];
      EntryDeliveriesCons(snap.trace, path[i], path[i + 1..m]);
      ClearCons(snap.links, path[i], path[i + 1..m]);
    }
  }

  /**
   * When the states at positions i up to m of the path keep their state on
   * ENTRY, the entry loop passes them and carries on from position m.
   */
  lemma {:induction false} EntryLoopReaches<C(!new)>(cfg: Config<C>, fuel: nat, from: Option<StateId>, target: StateId, i: nat, m: nat,
                                                       snap: Snapshot<C>)
    requires ValidConfig(cfg) && Fits(cfg, snap) && target < |cfg.parents| && snap.inTransition
    requires IsAncestor(cfg.parents, from, Some(target))
    requires i <= m < |PathDown(cfg.parents, from, target)|
    requires Keeps(cfg, PathDown(cfg.parents, from, target)[i..m], EntryEvent)
    ensures EntryLoop(cfg, fuel, from, target, i, snap) == EntryLoop(cfg, fuel, from, target, m, AfterEntries(cfg, from, target, i, m, snap))
    decreases m - i
  {
    var path := PathDown(cfg.parents, from, target);
    if i < m {
      var passed := path[i..m];
      var snap' := LocalDispatch(cfg, path[i], EntryEvent, snap).1;
      KeepsState(cfg, passed, 0, EntryEvent, snap);
      KeepsTail(cfg, passed, EntryEvent);
      assert passed[1..] == path[i + 1..m];
      EntryLoopReaches(cfg, fuel, from, target, i + 1, m, snap'.(links := snap'.links[path[i] := None]));
    }
  }

  /** One round of the initial descent at a state whose ENTRY handler kept its state. */
  lemma InitialRound<C(!new)>(cfg: Config<C>, fuel: nat, target: StateId, snap: Snapshot<C>)
    requires ValidConfig(cfg) && Fits(cfg, snap) && target < |cfg.parents| && snap.inTransition
    requires LocalDispatch(cfg, target, EntryEvent, snap).0 == Some(target)
    ensures var initial := LocalDispatch(cfg, target, InitialEvent, LocalDispatch(cfg, target, EntryEvent, snap).1);
      InitialLoop(cfg, fuel, target, snap)
      == if initial.0 == Some(target) then Done(target, initial.1)
         else if fuel == 0 then OutOfFuel(initial.1)
         else InitialLoop(cfg, fuel - 1, initial.0.value, initial.1)
  {
  }

  /** Without redirection the initial descent changes no link. */
  lemma InitialLoopKeepsLinks<C(!new)>(cfg: Config<C>, fuel: nat, target: StateId, snap: Snapshot<C>)
    requires ValidConfig(cfg) && NoRedirect(cfg) && Fits(cfg, snap) && target < |cfg.parents| && snap.inTransition
    ensures InitialLoop(cfg, fuel, target, snap).snap.links == snap.links
  {
    var r := DescentStop(cfg, fuel, target, snap);
    NoRedirectKeeps(cfg, [r.0], EntryEvent);
    KeepsState(cfg, [r.0], 0, EntryEvent, r.2);
    InitialRound(cfg, r.1, r.0, r.2);
  }

  /**
   * Without redirection, when the initial descent settles its log is a
   * descent from the target to the leaf it settled in.
   */
  lemma InitialLoopSteady<C(!new)>(cfg: Config<C>, fuel: nat, target: StateId, snap: Snapshot<C>)
    requires ValidConfig(cfg) && NoRedirect(cfg) && Fits(cfg, snap) && target < |cfg.parents| && snap.inTransition
    ensures var o := InitialLoop(cfg, fuel, target, snap);
      o.Done? ==> Descent(target, o.leaf, o.snap.trace, |snap.trace|)
  {
    var r := DescentStop(cfg, fuel, target, snap);
    NoRedirectKeeps(cfg, [r.0], EntryEvent);
    KeepsState(cfg, [r.0], 0, EntryEvent, r.2);
    InitialRound(cfg, r.1, r.0, r.2);
    var entered := LocalDispatch(cfg, r.0, EntryEvent, r.2);
    var initial := LocalDispatch(cfg, r.0, InitialEvent, entered.1);
    if initial.0 == Some(r.0) {
      PassingSettles(target, r.0, r.2.trace, |snap.trace|, entered.1.trace, initial.1.trace);
    }
  }

  /** A passing descent followed by ENTRY and INITIAL both answered by the state reached is a settled descent. */
  lemma {:induction false} PassingSettles(start: StateId, s: StateId, log: seq<Delivery>, i: nat, entered: seq<Delivery>, after: seq<Delivery>)
    requires i <= |log| && Passing(start, s, log, i)
    requires entered == log + [Delivery(s, EntryEvent, Some(s))]
    requires after == entered + [Delivery(s, InitialEvent, Some(s))]
    ensures Descent(start, s, after, i)
    decreases |log| - i
  {
    if i < |log| {
      PassingSettles(log[i + 1].result.value, s, log, i + 2, entered, after);
      assert after[i] == log[i] && after[i + 1] == log[i + 1];
    }
  }

  /** The snapshot after the link loop and the entry loop of _enter_state. */
  ghost function Entered<C(!new)>(cfg: Config<C>, from: Option<StateId>, target: StateId, snap: Snapshot<C>): (r: Snapshot<C>)
    requires ValidConfig(cfg) && Fits(cfg, snap) && target < |cfg.parents| && snap.inTransition
    requires IsAncestor(cfg.parents, from, Some(target))
    ensures Fits(cfg, r) && r.inTransition && snap.trace <= r.trace
  {
    var linked := snap.(links := LinkPath(cfg.parents, snap.links, from, target).0);
    AfterEntries(cfg, from, target, 0, |PathDown(cfg.parents, from, target)| - 1, linked)
  }

  /**
   * When the states above the target keep their state on ENTRY, _enter_state
   * is the entry loop followed by the initial descent.
   */
  lemma EnterStateSteady<C(!new)>(cfg: Config<C>, fuel: nat, from: Option<StateId>, target: StateId, snap: Snapshot<C>)
    requires ValidConfig(cfg) && Fits(cfg, snap) && target < |cfg.parents| && snap.inTransition
    requires IsAncestor(cfg.parents, from, Some(target))
    requires Keeps(cfg, Above(cfg.parents, from, target), EntryEvent)
    ensures EnterState(cfg, fuel, from, target, snap) == InitialLoop(cfg, fuel, target, Entered(cfg, from, target, snap))
  {
    var path := PathDown(cfg.parents, from, target);
    assert path[0..|path| - 1] == Above(cfg.parents, from, target);
    var linked := snap.(links := LinkPath(cfg.parents, snap.links, from, target).0);
    EntryLoopReaches(cfg, fuel, from, target, 0, |path| - 1, linked);
  }

  /**
   * When the states above the target keep their state on ENTRY, _enter_state
   * sends ENTRY down the path above the target, and the links the path set
   * are all cleared again: only the links of the path above the target
   * change, to NULL.
   */
  lemma EnteredLogged<C(!new)>(cfg: Config<C>, from: Option<StateId>, target: StateId, snap: Snapshot<C>)
    requires ValidConfig(cfg) && Fits(cfg, snap) && target < |cfg.parents| && snap.inTransition
    requires IsAncestor(cfg.parents, from, Some(target))
    requires Keeps(cfg, Above(cfg.parents, from, target), EntryEvent)
    ensures var mid := Entered(cfg, from, target, snap);
      && mid.trace == snap.trace + EntryDeliveries(Above(cfg.parents, from, target))
      && mid.links == Clear(snap.links, Above(cfg.parents, from, target))
  {
    var path := PathDown(cfg.parents, from, target);
    var above := Above(cfg.parents, from, target);
    var links := LinkPath(cfg.parents, snap.links, from, target).0;
    assert path[0..|path| - 1] == above;
    EntriesLogged(cfg, from, target, 0, |path| - 1, snap.(links := links));
    ClearLinked(cfg.parents, snap.links, from, target);
  }

  /** The links _enter_state sets on the way down are the ones its entry loop clears again. */
  lemma ClearLinked(parents: seq<Option<StateId>>, links: seq<Option<StateId>>, from: Option<StateId>, target: StateId)
    requires ValidTree(parents) && |links| == |parents| && target < |parents|
    requires IsAncestor(parents, from, Some(target))
    ensures var above := Above(parents, from, target);
      Clear(LinkPath(parents, links, from, target).0, above) == Clear(links, above)
  {
    var above := Above(parents, from, target);
    var linked := LinkPath(parents, links, from, target).0;
    forall x | 0 <= x < |links|
      ensures Clear(linked, above)[x] == Clear(links, above)[x]
    {
    }
  }

  /**
   * An ENTRY handler on the path above the target that returns another
   * state: the states above it have been sent ENTRY top-down, kept their
   * state and had their links cleared; the redirecting state's ENTRY is
   * logged with its result, and the rest of _enter_state is abandoned for a
   * transition from that state to its result.
   */
  lemma EntryRedirectLogged<C(!new)>(cfg: Config<C>, fuel: nat, from: Option<StateId>, target: StateId, m: nat, snap: Snapshot<C>)
    requires ValidConfig(cfg) && Fits(cfg, snap) && target < |cfg.parents| && snap.inTransition
    requires IsAncestor(cfg.parents, from, Some(target))
    requires m < |Above(cfg.parents, from, target)|
    requires Keeps(cfg, Above(cfg.parents, from, target)[..m], EntryEvent)
    ensures var above := Above(cfg.parents, from, target);
      var linked := snap.(links := LinkPath(cfg.parents, snap.links, from, target).0);
      var mid := AfterEntries(cfg, from, target, 0, m, linked);
      var (x, after) := LocalDispatch(cfg, above[m], EntryEvent, mid);
      && mid.trace == snap.trace + EntryDeliveries(above[..m])
      && mid.links == Clear(linked.links, above[..m])
      && after.trace == mid.trace + [Delivery(above[m], EntryEvent, x)]
      && (x != Some(above[m]) ==> EnterState(cfg, fuel, from, target, snap) == Redirect(cfg, fuel, above[m], x.value, after))
  {
    var path := PathDown(cfg.parents, from, target);
    assert path[0..m] == Above(cfg.parents, from, target)[..m];
    var linked := snap.(links := LinkPath(cfg.parents, snap.links, from, target).0);
    EntriesLogged(cfg, from, target, 0, m, linked);
    EntryLoopReaches(cfg, fuel, from, target, 0, m, linked);
  }

  /**
   * The log from position i on is an initial descent that has passed from
   * `start` down to `s` without settling: per state, ENTRY answered with the
   * state itself, then INITIAL answered with another state, which is
   * descended into next.
   */
  ghost predicate Passing(start: StateId, s: StateId, log: seq<Delivery>, i: nat)
    decreases |log| - i
  {
    if i == |log| then start == s
    else
      && i + 2 <= |log|
      && log[i] == Delivery(start, EntryEvent, Some(start))
      && log[i + 1].state == start && log[i + 1].event == InitialEvent && log[i + 1].result.Some? && log[i + 1].result != Some(start)
      && Passing(log[i + 1].result.value, s, log, i + 2)
  }

  /**
   * Where the initial descent from `target` stops descending: the state
   * whose ENTRY handler redirects, whose INITIAL handler returns itself, or
   * at which the fuel has run out; with the fuel left and the snapshot
   * before that state's ENTRY. The descent to it changed no link and logged
   * a passing descent.
   */
  ghost function DescentStop<C(!new)>(cfg: Config<C>, fuel: nat, target: StateId, snap: Snapshot<C>): (r: (StateId, nat, Snapshot<C>))
    requires ValidConfig(cfg) && Fits(cfg, snap) && target < |cfg.parents| && snap.inTransition
    ensures r.0 < |cfg.parents| && r.1 <= fuel && Fits(cfg, r.2) && r.2.inTransition && r.2.links == snap.links
    ensures snap.trace <= r.2.trace && Passing(target, r.0, r.2.trace, |snap.trace|)
    ensures var entered := LocalDispatch(cfg, r.0, EntryEvent, r.2);
      entered.0 == Some(r.0) ==> LocalDispatch(cfg, r.0, InitialEvent, entered.1).0 == Some(r.0) || r.1 == 0
    ensures InitialLoop(cfg, fuel, target, snap) == InitialLoop(cfg, r.1, r.0, r.2)
    decreases fuel
  {
    var (entered, snap') := LocalDispatch(cfg, target, EntryEvent, snap);
    if entered != Some(target) then (target, fuel, snap)
    else
      var (initial, snap'') := LocalDispatch(cfg, target, InitialEvent, snap');
      if initial == Some(target) || fuel == 0 then (target, fuel, snap)
      else
        var r := DescentStop(cfg, fuel - 1, initial.value, snap'');
        assert r.2.trace[|snap.trace|] == snap''.trace[|snap.trace|] && r.2.trace[|snap.trace| + 1] == snap''.trace[|snap.trace| + 1];
        InitialRound(cfg, fuel, target, snap);
        r
  }

  /**
   * An ENTRY handler in the initial descent that returns another state: the
   * descent is abandoned, at the state where it stopped, for a transition
   * from that state to the handler's result, with the fuel the descent left.
   */
  lemma DescentRedirects<C(!new)>(cfg: Config<C>, fuel: nat, target: StateId, snap: Snapshot<C>)
    requires ValidConfig(cfg) && Fits(cfg, snap) && target < |cfg.parents| && snap.inTransition
    ensures var r := DescentStop(cfg, fuel, target, snap);
      var d := LocalDispatch(cfg, r.0, EntryEvent, r.2);
      d.0 != Some(r.0) ==> InitialLoop(cfg, fuel, target, snap) == Redirect(cfg, r.1, r.0, d.0.value, d.1)
  {
  }

  // ---------------------------------------------------------------------
  // _transition as a whole

  /**
   * Where _transition stops exiting: for two different states, the deepest
   * state on both the chain of `from` and the chain of the target, and NULL
   * when the chains share none; a state's transition to itself stops at its
   * parent, so the state is exited and entered again.
   */
  lemma TransitionLcaDeepest(parents: seq<Option<StateId>>, from: StateId, target: StateId)
    requires ValidTree(parents) && from < |parents| && target < |parents|
    ensures var lca, cf, ct := TransitionLca(parents, from, target), Chain(parents, Some(from)), Chain(parents, Some(target));
      && (from != target && lca.Some? ==> lca.value in cf && lca.value in ct && forall x :: x in cf && x in ct ==> x <= lca.value)
      && (from != target && lca.None? ==> forall x :: x in cf ==> x !in ct)
      && (from == target ==> lca == parents[from])
  {
    var lca, cf, ct := TransitionLca(parents, from, target), Chain(parents, Some(from)), Chain(parents, Some(target));
    ChainDecreasing(parents, Some(from));
    ChainDecreasing(parents, Some(target));
    if from == target {
      if parents[from].Some? {
        assert parents[from].value in Ancestors(parents, from);
      }
    } else if IsAncestor(parents, Some(from), Some(target)) {
      forall x | x in cf && x in ct
        ensures x <= from
      {
        if x != from {
          assert x in Ancestors(parents, from);
        }
      }
    } else if IsAncestor(parents, Some(target), Some(from)) {
      forall x | x in cf && x in ct
        ensures x <= target
      {
        if x != target {
          assert x in Ancestors(parents, target);
        }
      }
    } else {
      forall x | x in cf && x in ct
        ensures x in Ancestors(parents, from) && x in Ancestors(parents, target)
      {
      }
    }
  }

  /**
   * The handlers _transition(from, target) passes keep their state: EXIT
   * for the states below the least common ancestor, and ENTRY for the states
   * between it and the target.
   */
  ghost predicate TransitionKeeps<C(!new)>(cfg: Config<C>, from: StateId, target: StateId)
    requires ValidConfig(cfg) && from < |cfg.parents| && target < |cfg.parents|
  {
    var lca := TransitionLca(cfg.parents, from, target);
    && Keeps(cfg, Exits(cfg.parents, Some(from), lca), ExitEvent)
    && (lca != Some(target) ==> Keeps(cfg, Above(cfg.parents, lca, target), EntryEvent))
  }

  /**
   * When the states it passes keep their state, _transition(from, target)
   * is the exit loop up to the least common ancestor, then either the end
   * at the target, when that is the ancestor, or the entry loop down to the
   * target followed by the initial descent.
   */
  lemma TransitionDecomposes<C(!new)>(cfg: Config<C>, fuel: nat, from: StateId, target: StateId, snap: Snapshot<C>)
    requires ValidConfig(cfg) && Fits(cfg, snap) && from < |cfg.parents| && target < |cfg.parents| && snap.inTransition
    requires TransitionKeeps(cfg, from, target)
    ensures var lca := TransitionLca(cfg.parents, from, target);
      var exited := AfterExits(cfg, Some(from), lca, snap);
      Transition(cfg, fuel, from, target, snap) ==
        if lca == Some(target) then Done(target, exited)
        else InitialLoop(cfg, fuel, target, Entered(cfg, lca, target, exited))
  {
    var lca := TransitionLca(cfg.parents, from, target);
    if !IsAncestor(cfg.parents, Some(from), Some(target)) {
      ExitLoopSteady(cfg, fuel, Some(from), lca, target, snap);
    }
    if lca != Some(target) {
      EnterStateSteady(cfg, fuel, lca, target, AfterExits(cfg, Some(from), lca, snap));
    }
  }

  /**
   * When the exited states keep their state on EXIT, _transition(from,
   * target) first sends EXIT to them, from `from` upwards: none when `from`
   * is an ancestor of the target, those below the target when the target
   * is an ancestor of `from`, those below the least common ancestor
   * otherwise. When the target is that ancestor the transition ends there
   * in the target, with nothing else delivered and no link changed.
   */
  lemma TransitionExits<C(!new)>(cfg: Config<C>, fuel: nat, from: StateId, target: StateId, snap: Snapshot<C>)
    requires ValidConfig(cfg) && Fits(cfg, snap) && from < |cfg.parents| && target < |cfg.parents| && snap.inTransition
    requires Keeps(cfg, Exits(cfg.parents, Some(from), TransitionLca(cfg.parents, from, target)), ExitEvent)
    ensures var o := Transition(cfg, fuel, from, target, snap);
      var lca := TransitionLca(cfg.parents, from, target);
      var exited := Exits(cfg.parents, Some(from), lca);
      && snap.trace + ExitDeliveries(exited) <= o.snap.trace
      && (IsAncestor(cfg.parents, Some(from), Some(target)) ==> exited == [])
      && (!IsAncestor(cfg.parents, Some(from), Some(target)) && IsAncestor(cfg.parents, Some(target), Some(from)) ==>
            exited == Exits(cfg.parents, Some(from), Some(target)))
      && (lca == Some(target) ==> o.Done? && o.leaf == target && o.snap.trace == snap.trace + ExitDeliveries(exited) && o.snap.links == snap.links)
  {
    var lca := TransitionLca(cfg.parents, from, target);
    var mid := AfterExits(cfg, Some(from), lca, snap);
    ExitsLogged(cfg, Some(from), lca, snap);
    if !IsAncestor(cfg.parents, Some(from), Some(target)) {
      ExitLoopSteady(cfg, fuel, Some(from), lca, target, snap);
    }
  }

  /**
   * When the states it passes keep their state and the target is not the
   * least common ancestor, _transition(from, target) sends EXIT up to the
   * ancestor, then ENTRY from below it down to, not including, the target,
   * clearing the links of those states, and starts the initial descent at
   * the target. Without redirection the descent changes no link and its
   * log is the descent from the target to the leaf it settles in.
   */
  lemma TransitionEnters<C(!new)>(cfg: Config<C>, fuel: nat, from: StateId, target: StateId, snap: Snapshot<C>)
    requires ValidConfig(cfg) && Fits(cfg, snap) && from < |cfg.parents| && target < |cfg.parents| && snap.inTransition
    requires TransitionKeeps(cfg, from, target)
    requires TransitionLca(cfg.parents, from, target) != Some(target)
    ensures var lca := TransitionLca(cfg.parents, from, target);
      var above := Above(cfg.parents, lca, target);
      var entered := Entered(cfg, lca, target, AfterExits(cfg, Some(from), lca, snap));
      var o := Transition(cfg, fuel, from, target, snap);
      && entered.trace == snap.trace + ExitDeliveries(Exits(cfg.parents, Some(from), lca)) + EntryDeliveries(above)
      && entered.links == Clear(snap.links, above)
      && o == InitialLoop(cfg, fuel, target, entered)
      && (NoRedirect(cfg) ==> o.snap.links == entered.links && (o.Done? ==> Descent(target, o.leaf, o.snap.trace, |entered.trace|)))
  {
    var lca := TransitionLca(cfg.parents, from, target);
    var exited := AfterExits(cfg, Some(from), lca, snap);
    var entered := Entered(cfg, lca, target, exited);
    TransitionDecomposes(cfg, fuel, from, target, snap);
    ExitsLogged(cfg, Some(from), lca, snap);
    EnteredLogged(cfg, lca, target, exited);
    if NoRedirect(cfg) {
      InitialLoopKeepsLinks(cfg, fuel, target, entered);
      InitialLoopSteady(cfg, fuel, target, entered);
    }
  }

  // ---------------------------------------------------------------------
  // Routing an event from the leaf to the root

  /**
   * The target the for loop of _dispatch_event settles on, given the log of
   * its deliveries: the first result that is neither the state it came from
   * nor the leaf (NULL included); the leaf when there is none.
   */
  function FirstDeparture(leaf: StateId, log: seq<Delivery>): Option<StateId>
    decreases |log|
  {
    if log == [] then Some(leaf)
    else if log[0].result != Some(log[0].state) && log[0].result != Some(leaf) then log[0].result
    else FirstDeparture(leaf, log[1..])
  }

  /** Delivery k of `log` is `e` to the state at position k of `chain`. */
  predicate RoutedAlong(log: seq<Delivery>, chain: seq<StateId>, e: Event)
  {
    |log| == |chain| && forall k :: 0 <= k < |log| ==> log[k].state == chain[k] && log[k].event == e
  }

  /**
   * One step of the for loop of _dispatch_event, on the log alone: a
   * delivery `d` to `x` in front of a log routed along `chain` is routed
   * along `x` and the chain, and the target chosen from the longer log is
   * the one the step and the rest choose.
   */
  lemma RouteCons(before: seq<Delivery>, d: Delivery, after: seq<Delivery>, x: StateId, chain: seq<StateId>, e: Event,
                  leaf: StateId, target: Option<StateId>, target': Option<StateId>, chosen: Option<StateId>)
    requires before + [d] <= after && d.state == x && d.event == e
    requires RoutedAlong(after[|before| + 1..], chain, e)
    requires target' == if d.result != Some(x) && target == Some(leaf) then d.result else target
    requires chosen == if target' == Some(leaf) then FirstDeparture(leaf, after[|before| + 1..]) else target'
    ensures RoutedAlong(after[|before|..], [x] + chain, e)
    ensures chosen == if target == Some(leaf) then FirstDeparture(leaf, after[|before|..]) else target
  {
    var log := after[|before|..];
    assert log == [d] + after[|before| + 1..];
    assert log[1..] == after[|before| + 1..];
  }

  /**
   * The for loop of _dispatch_event delivers the event to `cur` and each of
   * its ancestors, in that order, and while the target is still the leaf it
   * becomes the first result that departs from both its state and the
   * leaf; a target already chosen is kept.
   */
  lemma {:induction false} RouteLog<C(!new)>(cfg: Config<C>, leaf: StateId, cur: Option<StateId>, e: Event, target: Option<StateId>, snap: Snapshot<C>)
    requires ValidConfig(cfg) && Fits(cfg, snap) && snap.inTransition
    requires cur.Some? ==> cur.value < |cfg.parents|
    requires target.Some? ==> target.value < |cfg.parents|
    ensures var r := Route(cfg, leaf, cur, e, target, snap);
      var log := r.1.trace[|snap.trace|..];
      && RoutedAlong(log, Chain(cfg.parents, cur), e)
      && r.0 == if target == Some(leaf) then FirstDeparture(leaf, log) else target
    decreases Rank(cur)
  {
    if cur.Some? {
      var x := cur.value;
      var step := LocalDispatch(cfg, x, e, snap);
      var target' := if step.0 != cur && target == Some(leaf) then step.0 else target;
      var up := cfg.parents[x];
      RouteLog(cfg, leaf, up, e, target', step.1);
      var r := Route(cfg, leaf, up, e, target', step.1);
      assert Route(cfg, leaf, cur, e, target, snap) == r;
      assert Chain(cfg.parents, cur) == [x] + Chain(cfg.parents, up);
      RouteCons(snap.trace, Delivery(x, e, step.0), r.1.trace, x, Chain(cfg.parents, up), e, leaf, target, target', r.0);
    }
  }

  /**
   * _dispatch_event(state, e) for an event other than INITIAL: every state
   * from `state` up to the root sees `e`, leaf first; the target is the
   * first result that departs from its state and from the leaf. The event
   * is deferred when the target is NULL, ignored when it is the leaf, and
   * otherwise starts a transition from the leaf to the target.
   */
  lemma ProcessEventRoutes<C(!new)>(cfg: Config<C>, fuel: nat, state: StateId, e: Event, snap: Snapshot<C>)
    requires ValidConfig(cfg) && Fits(cfg, snap) && state < |cfg.parents| && snap.inTransition
    requires e.id != INITIAL
    ensures var (target, routed) := Route(cfg, state, Some(state), e, Some(state), snap);
      var log := routed.trace[|snap.trace|..];
      && RoutedAlong(log, [state] + Ancestors(cfg.parents, state), e)
      && target == FirstDeparture(state, log)
      && ProcessEvent(cfg, fuel, state, e, snap) ==
           if target.None? then Done(state, routed.(queue := Enqueue(cfg.capacity, routed.queue, e)))
           else if target == Some(state) then Done(state, routed)
           else Transition(cfg, fuel, state, target.value, routed)
  {
    RouteLog(cfg, state, Some(state), e, Some(state), snap);
  }

  /**
   * An event deferred while the queue is full is dropped: the machine stays
   * in `state` and the queue is the one it had before the event came in.
   */
  lemma DeferralDroppedWhenFull<C(!new)>(cfg: Config<C>, fuel: nat, state: StateId, e: Event, snap: Snapshot<C>)
    requires ValidConfig(cfg) && Fits(cfg, snap) && state < |cfg.parents| && snap.inTransition
    requires e.id != INITIAL && |snap.queue| == cfg.capacity
    requires Route(cfg, state, Some(state), e, Some(state), snap).0.None?
    ensures var routed := Route(cfg, state, Some(state), e, Some(state), snap).1;
      routed.queue == snap.queue && ProcessEvent(cfg, fuel, state, e, snap) == Done(state, routed)
  {
    var routed := Route(cfg, state, Some(state), e, Some(state), snap).1;
    assert snap.queue <= routed.queue && |routed.queue| <= cfg.capacity;
  }

  // ---------------------------------------------------------------------
  // The top-level dispatch

  /** While a dispatch is running, mhsm_dispatch_event_arg only tries to queue the event. */
  lemma DispatchWhileBusy<C(!new)>(cfg: Config<C>, fuel: nat, e: Event, snap: Snapshot<C>)
    requires ValidConfig(cfg) && Fits(cfg, snap) && snap.inTransition
    ensures DispatchEventArg(cfg, fuel, e, snap) == (true, snap.(queue := Enqueue(cfg.capacity, snap.queue, e)))
  {
  }

  // ---------------------------------------------------------------------
  // Replaying deferred events

  /**
   * The reference for the replay loop: process the given events one after
   * the other, each from the leaf the previous one settled in, dropping the
   * head of the queue after each.
   */
  ghost function ReplayEvents<C(!new)>(cfg: Config<C>, fuel: nat, events: seq<Event>, snap: Snapshot<C>): (r: (bool, Snapshot<C>))
    requires ValidConfig(cfg) && Fits(cfg, snap) && snap.inTransition
    decreases |events|
  {
    if events == [] then (true, snap)
    else
      match ProcessEvent(cfg, fuel, snap.current, events[0], snap)
      case OutOfFuel(snap') => (false, snap')
      case Done(leaf, snap') => ReplayEvents(cfg, fuel, events[1..], snap'.(current := leaf, queue := Dequeue(snap'.queue)))
  }

  /** Dropping the head of a queue that grew at its end keeps the rest of the original in front. */
  lemma QueueShift(q: seq<Event>, grown: seq<Event>, k: nat)
    requires q <= grown && 0 < k <= |q|
    ensures k - 1 <= |Dequeue(grown)| && Dequeue(grown)[..k - 1] == q[..k][1..]
  {
  }

  /**
   * The replay loop of mhsm_dispatch_event_arg with k <= the queue's length
   * rounds processes exactly the first k queued events, in the order they
   * were queued: the head is never missing, and events deferred while
   * replaying stay behind them.
   */
  lemma {:induction false} ReplayInOrder<C(!new)>(cfg: Config<C>, fuel: nat, k: nat, snap: Snapshot<C>)
    requires ValidConfig(cfg) && Fits(cfg, snap) && snap.inTransition
    requires k <= |snap.queue|
    ensures Replay(cfg, fuel, k, snap) == ReplayEvents(cfg, fuel, snap.queue[..k], snap)
    decreases k
  {
    if k != 0 {
      var events := snap.queue[..k];
      assert events[0] == snap.queue[0];
      match ProcessEvent(cfg, fuel, snap.current, snap.queue[0], snap)
      case OutOfFuel(_) =>
      case Done(leaf, snap') =>
        QueueShift(snap.queue, snap'.queue, k);
        ReplayInOrder(cfg, fuel, k - 1, snap'.(current := leaf, queue := Dequeue(snap'.queue)));
    }
  }

  // ---------------------------------------------------------------------
  // The INITIAL event and the top-level dispatch

  function Reverse(xs: seq<StateId>): (r: seq<StateId>)
    ensures |r| == |xs|
  {
    if xs == [] then [] else Reverse(xs[1..]) + [xs[0]]
  }

  /** The path down from NULL to a state is its chain of ancestors, root first, then the state. */
  lemma {:induction false} PathFromRoot(parents: seq<Option<StateId>>, target: StateId)
    requires ValidTree(parents) && target < |parents|
    ensures PathDown(parents, None, target) == Reverse(Ancestors(parents, target)) + [target]
    decreases target
  {
    if parents[target].Some? {
      var p := parents[target].value;
      PathFromRoot(parents, p);
      ReverseCons(p, Ancestors(parents, p));
      assert PathDown(parents, None, target) == PathDown(parents, None, p) + [target];
    }
  }

  lemma ReverseCons(x: StateId, xs: seq<StateId>)
    ensures Reverse([x] + xs) == Reverse(xs) + [x]
  {
    assert ([x] + xs)[1..] == xs;
  }

  /**
   * _dispatch_event with INITIAL skips the routing: the leaf is entered from
   * NULL, which sends ENTRY to each of its ancestors, root first, and then
   * starts the initial descent at the leaf itself.
   */
  lemma InitialEntersFromRoot<C(!new)>(cfg: Config<C>, fuel: nat, state: StateId, e: Event, snap: Snapshot<C>)
    requires ValidConfig(cfg) && Fits(cfg, snap) && state < |cfg.parents| && snap.inTransition
    requires e.id == INITIAL && Keeps(cfg, Above(cfg.parents, None, state), EntryEvent)
    ensures Above(cfg.parents, None, state) == Reverse(Ancestors(cfg.parents, state))
    ensures var entered := Entered(cfg, None, state, snap);
      && entered.trace == snap.trace + EntryDeliveries(Reverse(Ancestors(cfg.parents, state)))
      && ProcessEvent(cfg, fuel, state, e, snap) == InitialLoop(cfg, fuel, state, entered)
  {
    PathFromRoot(cfg.parents, state);
    var path := PathDown(cfg.parents, None, state);
    assert path[..|path| - 1] == Reverse(Ancestors(cfg.parents, state));
    EnterStateSteady(cfg, fuel, None, state, snap);
    EnteredLogged(cfg, None, state, snap);
  }

  /**
   * mhsm_dispatch_event_arg on an idle machine: the event is processed with
   * in_transition set, then every event in the queue at that point, the
   * ones the event itself deferred included, is processed in order, and
   * in_transition is cleared again.
   */
  lemma DispatchReplaysQueue<C(!new)>(cfg: Config<C>, fuel: nat, e: Event, snap: Snapshot<C>)
    requires ValidConfig(cfg) && Fits(cfg, snap) && !snap.inTransition
    ensures var first := ProcessEvent(cfg, fuel, snap.current, e, snap.(inTransition := true));
      first.OutOfFuel? ==> DispatchEventArg(cfg, fuel, e, snap) == (false, first.snap)
    ensures var first := ProcessEvent(cfg, fuel, snap.current, e, snap.(inTransition := true));
      first.Done? ==>
        var replayed := ReplayEvents(cfg, fuel, first.snap.queue, first.snap.(current := first.leaf));
        DispatchEventArg(cfg, fuel, e, snap) ==
          if replayed.0 then (true, replayed.1.(inTransition := false)) else (false, replayed.1)
  {
    var first := ProcessEvent(cfg, fuel, snap.current, e, snap.(inTransition := true));
    if first.Done? {
      var settled := first.snap.(current := first.leaf);
      ReplayInOrder(cfg, fuel, |settled.queue|, settled);
      assert settled.queue[..|settled.queue|] == first.snap.queue;
    }
  }
}
