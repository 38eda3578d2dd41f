/** Weakly connected components. */
module Components {
  import opened Reachability
  import opened Sequences
  import opened Digraphs

  /** Each node with its neighbours over edges in either direction. */
  function Links(g: Digraph): Graph<nat> {
    map v: nat | v < g.size :: Outgoing(g.edges, v) + Incoming(g.edges, v)
  }

  /** An undirected path joins u and v. */
  ghost predicate Joined(g: Digraph, u: nat, v: nat) {
    Reaches<nat>(Links(g), u, v)
  }

  lemma LinkBack(g: Digraph, u: nat, v: nat)
    requires g.Valid() && Reachability.Edge<nat>(Links(g), u, v)
    ensures Reachability.Edge<nat>(Links(g), v, u)
  {
    InOrOut(g.edges, u, v);
    InOrOut(g.edges, v, u);
    if v in Outgoing(g.edges, u) {
      OutgoingValid(g, u, v);
    } else {
      OutgoingValid(g, v, u);
    }
  }

  lemma {:induction false} PathBack(g: Digraph, p: seq<nat>)
    requires g.Valid() && IsPath<nat>(Links(g), p)
    ensures Joined(g, p[|p| - 1], p[0])
    decreases |p|
  {
    if |p| == 1 {
      ReachesSelf<nat>(Links(g), p[0]);
    } else {
      assert Reachability.Edge<nat>(Links(g), p[0], p[1]);
      LinkBack(g, p[0], p[1]);
      PathBack(g, p[1..]);
      ReachesThenEdge<nat>(Links(g), p[|p| - 1], p[1], p[0]);
    }
  }

  lemma JoinedBack(g: Digraph, u: nat, v: nat)
    requires g.Valid() && Joined(g, u, v)
    ensures Joined(g, v, u)
  {
    var p :| PathBetween<nat>(Links(g), p, u, v);
    PathBack(g, p);
  }

  /** Every edge has both of its ends in the set, or none. */
  ghost predicate KeepsEdges(g: Digraph, c: set<nat>) {
    forall e :: e in g.edges ==> (e.from in c <==> e.to in c)
  }

  /** Two nodes are joined exactly if no set of nodes that keeps every edge whole parts them. */
  lemma JoinedExactly(g: Digraph, u: nat, v: nat)
    requires g.Valid() && u < g.size
    ensures Joined(g, u, v) <==> forall c: set<nat> :: u in c && KeepsEdges(g, c) ==> v in c
  {
    if Joined(g, u, v) {
      forall c: set<nat> | u in c && KeepsEdges(g, c)
        ensures v in c
      {
        forall x, y | x in c && Reachability.Edge<nat>(Links(g), x, y)
          ensures y in c
        {
          LinkIsEdge(g, x, y);
        }
        ClosedReaches<nat>(Links(g), c, u, v);
      }
    }
    var all := set x: nat | x < g.size && Joined(g, u, x);
    ReachesSelf<nat>(Links(g), u);
    JoinedKeepsEdges(g, u, all);
    assert u in all && KeepsEdges(g, all);
  }

  lemma JoinedKeepsEdges(g: Digraph, u: nat, all: set<nat>)
    requires g.Valid() && forall x: nat :: x in all <==> x < g.size && Joined(g, u, x)
    ensures KeepsEdges(g, all)
  {
    forall e | e in g.edges
      ensures e.from in all <==> e.to in all
    {
      EdgeLinks(g, e);
      if e.from in all {
        ReachesThenEdge<nat>(Links(g), u, e.from, e.to);
      }
      if e.to in all {
        ReachesThenEdge<nat>(Links(g), u, e.to, e.from);
      }
    }
  }

  lemma EdgeLinks(g: Digraph, e: Digraphs.Edge)
    requires g.Valid() && e in g.edges
    ensures Reachability.Edge<nat>(Links(g), e.from, e.to) && Reachability.Edge<nat>(Links(g), e.to, e.from)
  {
    OutgoingMeaning(g.edges, e.from, e.to);
    LinkBack(g, e.from, e.to);
  }

  lemma LinkIsEdge(g: Digraph, x: nat, y: nat)
    requires Reachability.Edge<nat>(Links(g), x, y)
    ensures Digraphs.Edge(x, y) in g.edges || Digraphs.Edge(y, x) in g.edges
  {
    OutgoingMeaning(g.edges, x, y);
    OutgoingMeaning(g.edges, y, x);
    InOrOut(g.edges, y, x);
  }

  /** The nodes that a path joins to u. */
  ghost predicate IsComponent(g: Digraph, c: seq<nat>, u: nat) {
    NoRepeats(c) && forall v: nat :: v in c <==> v < g.size && Joined(g, u, v)
  }

  /** A component under way from start: the base is done, and the links of the nodes taken
      lead to nodes taken, in the base or on the stack. */
  ghost predicate Growing(g: Digraph, start: nat, base: set<nat>, c: seq<nat>, stack: seq<nat>) {
    && NoRepeats(c) && (start in c || start in stack)
    && (forall x :: x in c ==> x !in base)
    && (forall x :: x in c || x in stack ==> x < g.size && Joined(g, start, x))
    && (forall x, y :: x in c && Reachability.Edge<nat>(Links(g), x, y) ==> y in base || y in c || y in stack)
  }

  lemma Grown(g: Digraph, start: nat, base: set<nat>, c: seq<nat>)
    requires g.Valid() && start !in base && ClosedUnder<nat>(Links(g), base) && Growing(g, start, base, c, [])
    ensures IsComponent(g, c, start)
    ensures ClosedUnder<nat>(Links(g), base + set x | x in c)
  {
    var nodes := set x | x in c;
    forall x, y | x in nodes && Reachability.Edge<nat>(Links(g), x, y)
      ensures y in nodes
    {
      LinkBack(g, x, y);
    }
    forall v: nat | Joined(g, start, v)
      ensures v in c
    {
      ClosedReaches<nat>(Links(g), nodes, start, v);
    }
  }

  lemma Taken(g: Digraph, start: nat, base: set<nat>, c: seq<nat>, stack: seq<nat>, v: nat, stack': seq<nat>)
    requires g.Valid() && stack != [] && Growing(g, start, base, c, stack) && v == Last(stack) && v !in base && v !in c
    requires forall x :: x in stack' <==> x in Front(stack) || (x in Links(g)[v] && x !in base && x !in c && x != v)
    ensures Growing(g, start, base, c + [v], stack')
  {
    assert v in stack && forall x :: x in stack <==> x in Front(stack) || x == v;
    forall x | x in stack'
      ensures x < g.size && Joined(g, start, x)
    {
      assert Joined(g, start, v);
      if x in Links(g)[v] {
        assert Reachability.Edge<nat>(Links(g), v, x);
        LinkBack(g, v, x);
        ReachesThenEdge<nat>(Links(g), start, v, x);
      }
    }
  }

  lemma Skipped(g: Digraph, start: nat, base: set<nat>, c: seq<nat>, stack: seq<nat>)
    requires stack != [] && Growing(g, start, base, c, stack) && Last(stack) in c
    ensures Growing(g, start, base, c, Front(stack))
  {
    assert forall x :: x in stack <==> x in Front(stack) || x == Last(stack);
  }

  method PushUnvisited(neighbours: seq<nat>, visited: set<nat>, stack: seq<nat>) returns (stack': seq<nat>)
    ensures forall x :: x in stack' <==> x in stack || (x in neighbours && x !in visited)
  {
    stack' := stack;
    for i := 0 to |neighbours|
      invariant forall x :: x in stack' <==> x in stack || (x in neighbours[..i] && x !in visited)
    {
      TakeNext(neighbours, i);
      if neighbours[i] !in visited {
        stack' := stack' + [neighbours[i]];
      }
    }
    assert neighbours[..|neighbours|] == neighbours;
  }

  ghost function Unvisited(g: Digraph, visited: set<nat>): set<nat> {
    set x: nat | x < g.size && x !in visited
  }

  /** Collects the component of start and marks it visited. */
  method Component(g: Digraph, base: set<nat>, start: nat) returns (c: seq<nat>, visited: set<nat>)
    requires g.Valid() && start < g.size && start !in base && ClosedUnder<nat>(Links(g), base)
    ensures IsComponent(g, c, start) && visited == base + (set x | x in c) && ClosedUnder<nat>(Links(g), visited)
    ensures forall x :: x in c ==> x !in base
  {
    c, visited := [], base;
    var stack := [start];
    ReachesSelf<nat>(Links(g), start);
    while stack != []
      invariant Growing(g, start, base, c, stack) && visited == base + set x | x in c
      decreases Unvisited(g, visited), |stack|
    {
      ghost var before, waiting := visited, stack;
      var current := Last(stack);
      assert current in stack;
      stack := Front(stack);
      if current in visited {
        TopNotInBase(g, start, base, c, waiting);
        Skipped(g, start, base, c, waiting);
      } else {
        visited := visited + {current};
        stack := PushUnvisited(Outgoing(g.edges, current), visited, stack);
        stack := PushUnvisited(Incoming(g.edges, current), visited, stack);
        Taken(g, start, base, c, waiting, current, stack);
        c := c + [current];
        assert current in Unvisited(g, before) && current !in Unvisited(g, visited);
      }
    }
    Grown(g, start, base, c);
  }

  /** Nothing on the stack was done before this component. */
  lemma TopNotInBase(g: Digraph, start: nat, base: set<nat>, c: seq<nat>, stack: seq<nat>)
    requires g.Valid() && start !in base && ClosedUnder<nat>(Links(g), base)
    requires stack != [] && Growing(g, start, base, c, stack)
    ensures Last(stack) !in base
  {
    var v := Last(stack);
    assert v in stack;
    JoinedBack(g, start, v);
    if v in base {
      ClosedReaches<nat>(Links(g), base, v, start);
    }
  }

  // ----- The partition

  /** Every node is in exactly one component, and two nodes are in one component exactly when
      a path joins them. */
  ghost predicate Partition(g: Digraph, cs: seq<seq<nat>>, covered: set<nat>) {
    && (forall i :: 0 <= i < |cs| ==> cs[i] != [] && NoRepeats(cs[i]))
    && (forall v :: v in covered <==> exists i :: 0 <= i < |cs| && v in cs[i])
    && (forall i, j, u, v :: 0 <= i < |cs| && 0 <= j < |cs| && u in cs[i] && v in cs[j] ==>
      (i == j <==> Joined(g, u, v)))
  }

  lemma PartitionNext(g: Digraph, cs: seq<seq<nat>>, covered: set<nat>, c: seq<nat>, start: nat)
    requires g.Valid() && Partition(g, cs, covered) && ClosedUnder<nat>(Links(g), covered)
    requires IsComponent(g, c, start) && start < g.size && forall x :: x in c ==> x !in covered
    ensures Partition(g, cs + [c], covered + set x | x in c)
  {
    var cs', covered' := cs + [c], covered + set x | x in c;
    ReachesSelf<nat>(Links(g), start);
    assert start in c;
    forall v | v in covered'
      ensures exists i :: 0 <= i < |cs'| && v in cs'[i]
    {
      if v in c {
        assert v in cs'[|cs|];
      } else {
        var i :| 0 <= i < |cs| && v in cs[i];
        assert v in cs'[i];
      }
    }
    forall i, j, u, v | 0 <= i < |cs'| && 0 <= j < |cs'| && u in cs'[i] && v in cs'[j]
      ensures i == j <==> Joined(g, u, v)
    {
      if i == j == |cs| {
        JoinedBack(g, start, u);
        ReachesTransitive<nat>(Links(g), u, start, v);
      } else if i < |cs| && j < |cs| {
        assert u in cs[i] && v in cs[j];
      } else {
        Apart(g, covered, c, u, v);
      }
    }
  }

  /** No path joins a node of a new component to one covered before. */
  lemma Apart(g: Digraph, covered: set<nat>, c: seq<nat>, u: nat, v: nat)
    requires g.Valid() && ClosedUnder<nat>(Links(g), covered) && forall x :: x in c ==> x !in covered
    requires (u in covered && v in c) || (u in c && v in covered)
    ensures !Joined(g, u, v)
  {
    if Joined(g, u, v) {
      JoinedBack(g, u, v);
      if u in covered {
        ClosedReaches<nat>(Links(g), covered, u, v);
      } else {
        ClosedReaches<nat>(Links(g), covered, v, u);
      }
    }
  }

  method WeaklyConnectedComponents(g: Digraph) returns (components: seq<seq<nat>>)
    requires g.Valid()
    ensures Partition(g, components, Links(g).Keys)
  {
    components := [];
    var visited: set<nat> := {};
    for node := 0 to g.size
      invariant Partition(g, components, visited) && ClosedUnder<nat>(Links(g), visited)
      invariant forall x: nat :: x < node ==> x in visited
      invariant forall x :: x in visited ==> x < g.size
    {
      ReachesSelf<nat>(Links(g), node);
      if node !in visited {
        var component, covered := Component(g, visited, node);
        PartitionNext(g, components, visited, component, node);
        components := components + [component];
        assert Joined(g, node, node);
        visited := covered;
      }
    }
    assert visited == Links(g).Keys;
  }
}
