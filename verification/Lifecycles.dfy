/** The finite lifecycle of a classification and its validation. */
module Lifecycles {

  type Status = string

  datatype Lifecycle = Lifecycle(version: int, initial: Status, terminal: seq<Status>,
                                 transitions: map<Status, seq<Status>>)

  function Targets(l: Lifecycle, s: Status): (ts: seq<Status>) {
    if s in l.transitions then l.transitions[s] else []
  }

  predicate Edge(l: Lifecycle, from: Status, to: Status) {
    to in Targets(l, from)
  }

  function Defined(l: Lifecycle): (d: set<Status>)
    ensures forall s :: s in d <==> s in l.transitions || s in l.terminal
  {
    l.transitions.Keys + set s | s in l.terminal
  }

  /** A walk along transitions from the initial status. */
  ghost predicate IsWalk(l: Lifecycle, walk: seq<Status>) {
    && |walk| > 0 && walk[0] == l.initial
    && forall i :: 0 <= i < |walk| - 1 ==> Edge(l, walk[i], walk[i + 1])
  }

  ghost predicate Reachable(l: Lifecycle, s: Status) {
    exists walk :: IsWalk(l, walk) && walk[|walk| - 1] == s
  }

  /** Every transition leads to a status that is declared somewhere. */
  predicate TargetsDefined(l: Lifecycle) {
    forall s | s in l.transitions :: forall t | t in l.transitions[s] :: t in Defined(l)
  }

  /** What it takes to be accepted. */
  ghost predicate WellFormed(l: Lifecycle) {
    && 0 <= l.version <= 1
    && l.initial != ""
    && Targets(l, l.initial) != []
    && (forall s :: s in l.terminal ==> Targets(l, s) == [])
    && TargetsDefined(l)
    && (forall s :: s in Defined(l) ==> Reachable(l, s))
  }

  /** The same on the map of transitions: the initial status has somewhere to go, terminal ones have not, no
      transition leads to a status that is neither listed nor terminal, and all of those can be reached. */
  lemma WellFormedExact(l: Lifecycle)
    ensures WellFormed(l)
       <==> && 0 <= l.version <= 1 && l.initial != ""
            && l.initial in l.transitions && l.transitions[l.initial] != []
            && (forall s :: s in l.terminal && s in l.transitions ==> l.transitions[s] == [])
            && (forall s, t :: s in l.transitions && t in l.transitions[s] ==> t in l.transitions || t in l.terminal)
            && (forall s :: s in l.transitions || s in l.terminal ==> Reachable(l, s))
  {
    assert forall s :: s in l.terminal && s in l.transitions ==> Targets(l, s) == l.transitions[s];
    assert forall s :: s in l.terminal && s !in l.transitions ==> Targets(l, s) == [];
  }

  lemma WalkExtends(l: Lifecycle, from: Status, to: Status)
    requires Reachable(l, from) && Edge(l, from, to)
    ensures Reachable(l, to)
  {
    var walk :| IsWalk(l, walk) && walk[|walk| - 1] == from;
    var longer := walk + [to];
    assert IsWalk(l, longer);
  }

  ghost predicate Closed(l: Lifecycle, s: set<Status>) {
    l.initial in s && forall from, to :: from in s && Edge(l, from, to) ==> to in s
  }

  lemma {:induction false} ClosedHoldsWalk(l: Lifecycle, s: set<Status>, walk: seq<Status>)
    requires Closed(l, s) && IsWalk(l, walk)
    ensures walk[|walk| - 1] in s
  {
    if |walk| > 1 {
      var shorter := walk[..|walk| - 1];
      ClosedHoldsWalk(l, s, shorter);
      assert Edge(l, walk[|walk| - 2], walk[|walk| - 1]);
    }
  }

  /** Breadth-first search from the initial status visits exactly the reachable ones. */
  method Visit(l: Lifecycle) returns (visited: set<Status>)
    requires TargetsDefined(l) && l.initial in Defined(l)
    ensures forall s :: s in visited <==> Reachable(l, s)
  {
    visited := {l.initial};
    var queue := [l.initial];
    assert IsWalk(l, [l.initial]);
    while |queue| > 0
      invariant l.initial in visited && visited <= Defined(l)
      invariant forall s :: s in queue ==> s in visited
      invariant forall s :: s in visited ==> Reachable(l, s)
      invariant forall from, to :: from in visited && from !in queue && Edge(l, from, to) ==> to in visited
      decreases Defined(l) - visited, |queue|
    {
      var from := queue[0];
      ghost var seen, waiting := visited, queue[1..];
      visited, queue := Expand(l, from, visited, queue[1..]);
      forall s, to | s in visited && s !in queue && Edge(l, s, to) ensures to in visited {
        if s != from {
          assert s !in waiting;
          assert s in seen;
        }
      }
    }
    forall s | Reachable(l, s) ensures s in visited {
      var walk :| IsWalk(l, walk) && walk[|walk| - 1] == s;
      ClosedHoldsWalk(l, visited, walk);
    }
  }

  /** One round: mark and enqueue the unvisited targets of a status. */
  method Expand(l: Lifecycle, from: Status, visited: set<Status>, queue: seq<Status>)
    returns (visited': set<Status>, queue': seq<Status>)
    requires TargetsDefined(l) && Reachable(l, from) && visited <= Defined(l)
    requires forall s :: s in queue ==> s in visited
    requires forall s :: s in visited ==> Reachable(l, s)
    ensures visited <= visited' <= Defined(l)
    ensures forall to :: Edge(l, from, to) ==> to in visited'
    ensures forall s :: s in visited' ==> Reachable(l, s)
    ensures forall s :: s in queue' <==> s in queue || s in visited' - visited
    ensures visited' == visited ==> queue' == queue
  {
    visited', queue' := visited, queue;
    var targets := Targets(l, from);
    for i := 0 to |targets|
      invariant visited <= visited' <= Defined(l)
      invariant forall j :: 0 <= j < i ==> targets[j] in visited'
      invariant forall s :: s in visited' ==> Reachable(l, s)
      invariant forall s :: s in queue' <==> s in queue || s in visited' - visited
      invariant visited' == visited ==> queue' == queue
    {
      var to := targets[i];
      if to !in visited' {
        assert Edge(l, from, to);
        WalkExtends(l, from, to);
        visited' := visited' + {to};
        queue' := queue' + [to];
      }
    }
  }

  method Validate(l: Lifecycle) returns (ok: bool)
    ensures ok <==> WellFormed(l)
  {
    if l.version < 0 || l.version > 1 {
      return false;
    }
    if l.initial == "" {
      return false;
    }
    if Targets(l, l.initial) == [] {
      return false;
    }
    if exists s | s in l.terminal :: Targets(l, s) != [] {
      return false;
    }
    if !TargetsDefined(l) {
      return false;
    }
    var visited := Visit(l);
    if exists s | s in Defined(l) :: s !in visited {
      return false;
    }
    return true;
  }

  method CanTransition(l: Lifecycle, from: Status, to: Status) returns (ok: bool)
    ensures ok <==> Edge(l, from, to)
  {
    var targets := Targets(l, from);
    for i := 0 to |targets|
      invariant forall j :: 0 <= j < i ==> targets[j] != to
    {
      if targets[i] == to {
        return true;
      }
    }
    return false;
  }
}
