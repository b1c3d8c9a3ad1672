/** In a finite set where every member points to a member, following the pointers runs into a circle. */
module Circles {

  ghost predicate Distinct(path: seq<nat>) {
    forall i, j :: 0 <= i < j < |path| ==> path[i] != path[j]
  }

  /** The place after i, and after the last the first. */
  function Next(i: nat, n: nat): nat
    requires i < n
  {
    if i + 1 == n then 0 else i + 1
  }

  lemma {:induction false} DistinctFits(path: seq<nat>, nodes: set<nat>)
    requires Distinct(path) && forall x :: x in path ==> x in nodes
    ensures |path| <= |nodes|
  {
    if path != [] {
      var last := path[|path| - 1];
      var init := path[..|path| - 1];
      forall x | x in init ensures x in nodes - {last} {
        assert x in path;
      }
      DistinctFits(init, nodes - {last});
    }
  }

  /** Following the pointers from a path without repetition. */
  lemma {:induction false} Follow(nodes: set<nat>, next: map<nat, nat>, path: seq<nat>) returns (circle: seq<nat>)
    requires forall x :: x in nodes ==> x in next && next[x] in nodes
    requires path != [] && Distinct(path) && forall x :: x in path ==> x in nodes
    requires forall i :: 0 <= i < |path| - 1 ==> next[path[i]] == path[i + 1]
    ensures circle != [] && Distinct(circle) && forall x :: x in circle ==> x in nodes
    ensures forall i :: 0 <= i < |circle| ==> next[circle[i]] == circle[Next(i, |circle|)]
    decreases |nodes| - |path|
  {
    var after := next[path[|path| - 1]];
    if after in path {
      var i :| 0 <= i < |path| && path[i] == after;
      circle := path[i..];
    } else {
      var longer := path + [after];
      DistinctFits(longer, nodes);
      circle := Follow(nodes, next, longer);
    }
  }

  lemma FindCircle(nodes: set<nat>, next: map<nat, nat>) returns (circle: seq<nat>)
    requires nodes != {} && forall x :: x in nodes ==> x in next && next[x] in nodes
    ensures circle != [] && Distinct(circle) && forall x :: x in circle ==> x in nodes
    ensures forall i :: 0 <= i < |circle| ==> next[circle[i]] == circle[Next(i, |circle|)]
  {
    var start :| start in nodes;
    circle := Follow(nodes, next, [start]);
  }
}
