/**
 * The side-effect-free walks over the parent pointers in mbb/hsm.c:
 * mhsm_is_ancestor, _find_least_common_ancestor, mhsm_is_in, and the walk
 * that links the entry path in _enter_state. A state is an index into the
 * parent table; `None` plays the part of NULL.
 */
module Ancestry {
  import opened HsmTypes

  /** A rank that decreases along the parent chain and ends at NULL. */
  function Rank(s: Option<StateId>): nat
  {
    match s
    case None => 0
    case Some(x) => x + 1
  }

  /** The strict ancestors of `s`, nearest first: parent, grandparent, ..., root. */
  function Ancestors(parents: seq<Option<StateId>>, s: StateId): (r: seq<StateId>)
    requires ValidTree(parents) && s < |parents|
    ensures forall i :: 0 <= i < |r| ==> r[i] < s
    ensures forall i, j :: 0 <= i < j < |r| ==> r[j] < r[i]
    ensures r == [] <==> parents[s].None?
    ensures r != [] ==> r[0] == parents[s].value
    decreases s
  {
    match parents[s]
    case None => []
    case Some(p) => [p] + Ancestors(parents, p)
  }

  /** The while loop of mhsm_is_ancestor: does `a` occur on the parent chain of `s`? */
  predicate IsStrictAncestor(parents: seq<Option<StateId>>, a: StateId, s: StateId)
    requires ValidTree(parents) && s < |parents|
    ensures IsStrictAncestor(parents, a, s) ==> a < s
    decreases s
  {
    match parents[s]
    case None => false
    case Some(p) => p == a || IsStrictAncestor(parents, a, p)
  }

  /** The walk of mhsm_is_ancestor finds exactly the states of the ancestor chain. */
  lemma {:induction false} StrictAncestorIffInChain(parents: seq<Option<StateId>>, a: StateId, s: StateId)
    requires ValidTree(parents) && s < |parents|
    ensures IsStrictAncestor(parents, a, s) <==> a in Ancestors(parents, s)
    decreases s
  {
    match parents[s]
    case None =>
    case Some(p) =>
      StrictAncestorIffInChain(parents, a, p);
  }

  /**
   * mhsm_is_ancestor(ancestor, target): false for a NULL target, true for a
   * NULL ancestor, and otherwise true exactly when `ancestor` is a strict
   * ancestor of `target`; a state is never its own ancestor.
   */
  predicate IsAncestor(parents: seq<Option<StateId>>, ancestor: Option<StateId>, target: Option<StateId>)
    requires ValidTree(parents)
    requires target.Some? ==> target.value < |parents|
    ensures IsAncestor(parents, ancestor, target) <==>
      target.Some? && (ancestor.None? || ancestor.value in Ancestors(parents, target.value))
    ensures IsAncestor(parents, ancestor, target) && ancestor.Some? ==> ancestor.value < target.value
  {
    if target.None? then false
    else if ancestor.None? then true
    else
      StrictAncestorIffInChain(parents, ancestor.value, target.value);
      IsStrictAncestor(parents, ancestor.value, target.value)
  }

  /**
   * mhsm_is_in with `current` the machine's current state: the current state
   * is `s` or one of its descendants. NULL is above every state, so a
   * machine is always in NULL.
   */
  predicate IsIn(parents: seq<Option<StateId>>, current: StateId, s: Option<StateId>)
    requires ValidTree(parents) && current < |parents|
    ensures IsIn(parents, current, s) <==> s.None? || current == s.value || s.value in Ancestors(parents, current)
  {
    Some(current) == s || IsAncestor(parents, s, Some(current))
  }

  /**
   * The loop of _find_least_common_ancestor, from the state `a`: the first
   * proper ancestor of `a` that is a proper ancestor of `b`, or NULL when the
   * two chains share no state.
   */
  function LcaWalk(parents: seq<Option<StateId>>, a: StateId, b: StateId): (r: Option<StateId>)
    requires ValidTree(parents) && a < |parents| && b < |parents|
    ensures r.Some? ==> r.value in Ancestors(parents, a) && r.value in Ancestors(parents, b)
    ensures r.Some? ==> forall x :: x in Ancestors(parents, a) && r.value < x ==> x !in Ancestors(parents, b)
    ensures r.None? ==> forall x :: x in Ancestors(parents, a) ==> x !in Ancestors(parents, b)
    decreases a
  {
    match parents[a]
    case None => None
    case Some(p) =>
      if IsAncestor(parents, Some(p), Some(b)) then Some(p) else LcaWalk(parents, p, b)
  }

  /** _find_least_common_ancestor(a, b), NULL for a NULL argument. */
  function Lca(parents: seq<Option<StateId>>, a: Option<StateId>, b: Option<StateId>): (r: Option<StateId>)
    requires ValidTree(parents)
    requires a.Some? ==> a.value < |parents|
    requires b.Some? ==> b.value < |parents|
    ensures a.None? || b.None? ==> r.None?
    ensures r.Some? ==> a.Some? && b.Some? && r.value in Ancestors(parents, a.value) && r.value in Ancestors(parents, b.value)
    ensures r.Some? ==> forall x :: x in Ancestors(parents, a.value) && r.value < x ==> x !in Ancestors(parents, b.value)
    ensures a.Some? && b.Some? && r.None? ==> forall x :: x in Ancestors(parents, a.value) ==> x !in Ancestors(parents, b.value)
  {
    if a.None? || b.None? then None else LcaWalk(parents, a.value, b.value)
  }

  /**
   * The least common ancestor does not depend on the order of its arguments:
   * both orders find the deepest state that both chains share.
   */
  lemma LcaSymmetric(parents: seq<Option<StateId>>, a: StateId, b: StateId)
    requires ValidTree(parents) && a < |parents| && b < |parents|
    ensures Lca(parents, Some(a), Some(b)) == Lca(parents, Some(b), Some(a))
  {
    var ab, ba := LcaWalk(parents, a, b), LcaWalk(parents, b, a);
    if ab.Some? && ba.Some? {
      assert !(ab.value < ba.value) && !(ba.value < ab.value);
    }
  }

  /**
   * The path _enter_state walks down from `from` (exclusive; NULL means
   * above the roots) to `target` (inclusive), top first.
   */
  function PathDown(parents: seq<Option<StateId>>, from: Option<StateId>, target: StateId): (p: seq<StateId>)
    requires ValidTree(parents) && target < |parents|
    requires IsAncestor(parents, from, Some(target))
    ensures |p| >= 1 && p[|p| - 1] == target
    ensures forall i :: 0 <= i < |p| ==> p[i] < |parents|
    ensures parents[p[0]] == from
    ensures forall i :: 0 <= i < |p| - 1 ==> parents[p[i + 1]] == Some(p[i])
    ensures forall i :: 0 <= i < |p| - 1 ==> p[i] < target
    decreases target
  {
    if parents[target] == from then [target]
    else PathDown(parents, from, parents[target].value) + [target]
  }

  predicate Increasing(p: seq<StateId>)
  {
    forall i, j :: 0 <= i < j < |p| ==> p[i] < p[j]
  }

  /** The path goes strictly downwards: its states are increasing, so distinct. */
  lemma {:induction false} PathDownIncreasing(parents: seq<Option<StateId>>, from: Option<StateId>, target: StateId)
    requires ValidTree(parents) && target < |parents|
    requires IsAncestor(parents, from, Some(target))
    ensures Increasing(PathDown(parents, from, target))
    decreases target
  {
    if parents[target] != from {
      var up := parents[target].value;
      PathDownIncreasing(parents, from, up);
      var q := PathDown(parents, from, up);
      assert PathDown(parents, from, target) == q + [target];
      var p := q + [target];
      forall i, j | 0 <= i < j < |p|
        ensures p[i] < p[j]
      {
        if j < |q| {
          assert p[i] == q[i] && p[j] == q[j];
        } else {
          assert p[i] == q[i] && p[j] == target && up < target;
          if i < |q| - 1 {
            assert q[i] < up;
          } else {
            assert q[i] == up;
          }
        }
      }
    }
  }

  /**
   * The for loop at the head of _enter_state: from `cur` upwards, set each
   * parent's current_substate link to the child on the path until the child
   * of `from` is reached. Returns the new links and that topmost child.
   * Every state of the path above `cur` ends up linked to its successor on
   * the path, and no other link changes.
   */
  function LinkPath(parents: seq<Option<StateId>>, links: seq<Option<StateId>>, from: Option<StateId>, cur: StateId)
    : (r: (seq<Option<StateId>>, StateId))
    requires ValidTree(parents) && |links| == |parents| && cur < |parents|
    requires IsAncestor(parents, from, Some(cur))
    ensures |r.0| == |links| && r.1 == PathDown(parents, from, cur)[0]
    ensures var p := PathDown(parents, from, cur);
      forall i :: 0 <= i < |p| - 1 ==> r.0[p[i]] == Some(p[i + 1])
    ensures var p := PathDown(parents, from, cur);
      forall x :: 0 <= x < |links| && x !in p[..|p| - 1] ==> r.0[x] == links[x]
    decreases cur
  {
    if parents[cur] == from then (links, cur)
    else
      var up := parents[cur].value;
      LinkPath(parents, links[up := Some(cur)], from, up)
  }

  /** From position i of `path` on, each state's link names its successor on the path. */
  predicate LinkedFrom(links: seq<Option<StateId>>, path: seq<StateId>, i: nat)
  {
    forall j :: i <= j < |path| - 1 ==> path[j] < |links| && links[path[j]] == Some(path[j + 1])
  }

  /** Clearing the link of the state at position i of the entry path keeps the links below it. */
  lemma ClearLink(parents: seq<Option<StateId>>, from: Option<StateId>, target: StateId, links: seq<Option<StateId>>, i: nat)
    requires ValidTree(parents) && target < |parents|
    requires IsAncestor(parents, from, Some(target))
    requires LinkedFrom(links, PathDown(parents, from, target), i) && i < |PathDown(parents, from, target)| - 1
    ensures var p := PathDown(parents, from, target);
      LinkedFrom(links[p[i] := None], p, i + 1)
  {
    PathDownIncreasing(parents, from, target);
  }
}
