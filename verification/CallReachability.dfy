/** The shared-helper check of curated candidates (scripts/build_validation_candidates.py):
    a helper counts for a route only if calls and decorators lead to it from the route's function. */
module CallReachability {
  import opened Options

  /** A function definition: its lines, the plain names it calls and the plain names that decorate it. */
  datatype Definition = Definition(first: nat, last: nat, calls: seq<string>, decorators: seq<string>)

  /** Definitions by name, and the names in the order the dictionary yields them. */
  datatype Source = Source(functions: map<string, Definition>, order: seq<string>)

  ghost predicate Indexed(s: Source) {
    forall n :: n in s.order <==> n in s.functions
  }

  // ----- What reaching means -----

  ghost predicate Edge(s: Source, a: string, b: string) {
    a in s.functions && (b in s.functions[a].calls || b in s.functions[a].decorators)
  }

  ghost predicate Path(s: Source, p: seq<string>, from: string, to: string) {
    && p != [] && p[0] == from && p[|p| - 1] == to
    && forall i :: 0 < i < |p| ==> Edge(s, p[i - 1], p[i])
  }

  ghost predicate Reachable(s: Source, from: string, to: string) {
    exists p :: Path(s, p, from, to)
  }

  lemma ReachableStep(s: Source, from: string, a: string, b: string)
    requires Reachable(s, from, a) && Edge(s, a, b)
    ensures Reachable(s, from, b)
  {
    var p :| Path(s, p, from, a);
    assert Path(s, p + [b], from, b);
  }

  lemma {:induction false} ClosedHoldsPath(s: Source, closed: set<string>, p: seq<string>, i: nat)
    requires p != [] && p[0] in closed && i < |p|
    requires forall k :: 0 < k < |p| ==> Edge(s, p[k - 1], p[k])
    requires forall a, b :: a in closed && Edge(s, a, b) ==> b in closed
    ensures p[i] in closed
  {
    if i == 0 {
    } else {
      ClosedHoldsPath(s, closed, p, i - 1);
      assert Edge(s, p[i - 1], p[i]);
    }
  }

  /** "names" holds what its defined members call and what decorates them. */
  ghost predicate Closed(s: Source, names: set<string>) {
    forall a :: a in names && a in s.functions ==>
      && (forall b :: b in s.functions[a].calls ==> b in names)
      && (forall b :: b in s.functions[a].decorators ==> b in names)
  }

  /** A set that holds the start and is closed holds everything reachable. */
  lemma ClosedHoldsReachable(s: Source, closed: set<string>, from: string, to: string)
    requires from in closed && Reachable(s, from, to) && Closed(s, closed)
    ensures to in closed
  {
    var p :| Path(s, p, from, to);
    ClosedHoldsPath(s, closed, p, |p| - 1);
  }

  // ----- The worklist -----

  /** Every name the search can meet: the start and all names mentioned anywhere. */
  ghost function Names(s: Source, from: string): set<string> {
    {from} + (set a, b | a in s.functions && b in s.functions[a].calls :: b)
           + (set a, b | a in s.functions && b in s.functions[a].decorators :: b)
  }

  lemma NamesHoldTargets(s: Source, from: string, a: string, b: string)
    requires Edge(s, a, b)
    ensures b in Names(s, from)
  {
  }

  /** Names met so far are reachable, and every neighbour of a visited name is visited or still waits. */
  ghost predicate Searching(s: Source, from: string, names: set<string>, visited: set<string>, pending: seq<string>) {
    && (from in visited || from in pending)
    && (forall n :: n in visited || n in pending ==> n in names && Reachable(s, from, n))
    && (forall a, b :: a in visited && Edge(s, a, b) ==> b in visited || b in pending)
  }

  lemma PopKeeps(s: Source, from: string, names: set<string>, visited: set<string>, pending: seq<string>)
    requires pending != [] && Searching(s, from, names, visited, pending) && pending[|pending| - 1] in visited
    ensures Searching(s, from, names, visited, pending[..|pending| - 1])
  {
    assert pending == pending[..|pending| - 1] + [pending[|pending| - 1]];
  }

  ghost function Neighbours(s: Source, name: string): seq<string> {
    if name in s.functions then s.functions[name].calls + s.functions[name].decorators else []
  }

  lemma VisitKeeps(s: Source, from: string, names: set<string>, visited: set<string>, pending: seq<string>)
    requires pending != [] && Searching(s, from, names, visited, pending)
    requires names == Names(s, from)
    ensures var k := |pending| - 1;
            Searching(s, from, names, visited + {pending[k]}, pending[..k] + Neighbours(s, pending[k]))
  {
    var k := |pending| - 1;
    var name := pending[k];
    assert pending == pending[..k] + [name];
    var next := pending[..k] + Neighbours(s, name);
    forall n | n in next
      ensures n in names && Reachable(s, from, n)
    {
      if n in Neighbours(s, name) {
        assert Edge(s, name, n);
        NamesHoldTargets(s, from, name, n);
        ReachableStep(s, from, name, n);
      }
    }
  }

  lemma VisitShrinks(names: set<string>, visited: set<string>, name: string)
    requires name in names && name !in visited
    ensures |names - (visited + {name})| < |names - visited|
  {
    assert names - (visited + {name}) == (names - visited) - {name};
    assert name in names - visited;
  }

  lemma SearchStarts(s: Source, from: string)
    ensures Searching(s, from, Names(s, from), {}, [from])
  {
    assert Path(s, [from], from, from);
  }

  lemma VisitedIsLeast(s: Source, from: string, visited: set<string>)
    requires forall n :: n in visited <==> Reachable(s, from, n)
    ensures from in visited && Closed(s, visited)
    ensures forall names: set<string> :: from in names && Closed(s, names) ==> visited <= names
  {
    assert Path(s, [from], from, from);
    forall a | a in visited && a in s.functions
      ensures forall b :: b in s.functions[a].calls || b in s.functions[a].decorators ==> b in visited
    {
      forall b | b in s.functions[a].calls || b in s.functions[a].decorators
        ensures b in visited
      {
        ReachableStep(s, from, a, b);
      }
    }
    forall names: set<string> | from in names && Closed(s, names)
      ensures visited <= names
    {
      forall n | n in visited
        ensures n in names
      {
        ClosedHoldsReachable(s, names, from, n);
      }
    }
  }

  lemma SearchDone(s: Source, from: string, names: set<string>, visited: set<string>)
    requires Searching(s, from, names, visited, [])
    ensures forall n :: n in visited <==> Reachable(s, from, n)
  {
    forall n | Reachable(s, from, n)
      ensures n in visited
    {
      ClosedHoldsReachable(s, visited, from, n);
    }
  }

  /** The stack with what a name calls and what decorates it, if it is defined. */
  method Push(s: Source, rest: seq<string>, name: string) returns (pending: seq<string>)
    ensures pending == rest + Neighbours(s, name)
  {
    pending := rest;
    if name in s.functions {
      var node := s.functions[name];
      pending := pending + node.calls;
      pending := pending + node.decorators;
    }
  }

  /** The names visited from "from": exactly the reachable ones, defined or not. Repeated and undefined
      names on the stack do not keep it from ending. */
  method Visit(s: Source, from: string) returns (visited: set<string>)
    ensures forall n :: n in visited <==> Reachable(s, from, n)
    // It is the least closed set of names that holds the start.
    ensures from in visited && Closed(s, visited)
    ensures forall names: set<string> :: from in names && Closed(s, names) ==> visited <= names
  {
    visited := {};
    var pending := [from];
    ghost var names := Names(s, from);
    SearchStarts(s, from);
    while pending != []
      invariant Searching(s, from, names, visited, pending)
      decreases |names - visited|, |pending|
    {
      var name, rest := pending[|pending| - 1], pending[..|pending| - 1];
      if name in visited {
        PopKeeps(s, from, names, visited, pending);
        pending := rest;
      } else {
        VisitKeeps(s, from, names, visited, pending);
        VisitShrinks(names, visited, name);
        visited := visited + {name};
        pending := Push(s, rest, name);
      }
    }
    SearchDone(s, from, names, visited);
    VisitedIsLeast(s, from, visited);
  }

  // ----- The check -----

  /** The first function, in dictionary order, that starts on a line. */
  ghost predicate StartsAt(s: Source, line: nat, i: nat) {
    && i < |s.order| && s.order[i] in s.functions && s.functions[s.order[i]].first == line
    && forall j :: 0 <= j < i && s.order[j] in s.functions ==> s.functions[s.order[j]].first != line
  }

  ghost predicate HelperAccepted(s: Source, routeFirst: nat, helper: string, anchor: nat) {
    && helper in s.functions && s.functions[helper].first <= anchor <= s.functions[helper].last
    && exists i: nat :: StartsAt(s, routeFirst, i) && Reachable(s, s.order[i], helper)
  }

  /** Accepts exactly when the anchor lies in the helper and the route's function reaches it. */
  method CheckSharedHelper(s: Source, routeFirst: nat, helper: string, anchor: nat) returns (r: Result<()>)
    requires Indexed(s)
    ensures r.Ok? <==> HelperAccepted(s, routeFirst, helper, anchor)
    ensures r.Err? && helper in s.functions && s.functions[helper].first <= anchor <= s.functions[helper].last
            && (exists i: nat :: StartsAt(s, routeFirst, i)) ==>
              r.message == "curated shared helper is not reachable from route"
  {
    var n := 0;
    while n < |s.order| && s.functions[s.order[n]].first != routeFirst
      invariant n <= |s.order|
      invariant forall j :: 0 <= j < n ==> s.functions[s.order[j]].first != routeFirst
    {
      n := n + 1;
    }
    assert forall i: nat :: StartsAt(s, routeFirst, i) ==> i == n && n < |s.order|;
    if helper !in s.functions || n == |s.order|
       || !(s.functions[helper].first <= anchor <= s.functions[helper].last) {
      return Err("curated code anchor is outside named shared helper");
    }
    assert StartsAt(s, routeFirst, n);
    var visited := Visit(s, s.order[n]);
    if helper !in visited {
      return Err("curated shared helper is not reachable from route");
    }
    return Ok(());
  }
}
