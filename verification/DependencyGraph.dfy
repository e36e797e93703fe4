/** Cycle rejection on a task dependency graph by depth-first search. */
module DependencyGraph {

  /** Each key with the keys it depends on. */
  type Graph = map<string, seq<string>>

  ghost predicate Closed(g: Graph) {
    forall v :: v in g ==> forall d :: d in g[v] ==> d in g
  }

  ghost predicate Edge(g: Graph, v: string, d: string) {
    v in g && d in g[v]
  }

  ghost predicate IsPath(g: Graph, p: seq<string>) {
    forall i :: 0 <= i < |p| - 1 ==> Edge(g, p[i], p[i + 1])
  }

  ghost predicate IsCycle(g: Graph, p: seq<string>) {
    |p| >= 2 && p[0] == p[|p| - 1] && IsPath(g, p)
  }

  ghost predicate Cyclic(g: Graph) {
    exists p :: IsCycle(g, p)
  }

  /** Finished nodes depend only on nodes finished before them. */
  ghost predicate Ranked(g: Graph, finished: map<string, nat>, clock: nat) {
    forall v :: v in finished ==>
                  && v in g
                  && finished[v] < clock
                  && forall d :: d in g[v] ==> d in finished && finished[d] < finished[v]
  }

  class CycleSearch {
    const edges: Graph
    var visiting: set<string>
    var visited: set<string>
    ghost var finished: map<string, nat>
    ghost var clock: nat

    constructor (edges: Graph)
      ensures this.edges == edges && visiting == {} && visited == {} && finished == map[] && clock == 0
    {
      this.edges := edges;
      visiting, visited, finished, clock := {}, {}, map[], 0;
    }

    ghost predicate Valid(stack: seq<string>)
      reads this
    {
      && Closed(edges)
      && visited == finished.Keys
      && Ranked(edges, finished, clock)
      && (forall v :: v in visiting <==> v in stack)
      && (forall v :: v in stack ==> v in edges && v !in visited)
      && IsPath(edges, stack)
    }

    /** The nested `visit`; `stack` lists the nodes whose visits are in progress, outermost first. */
    method Visit(id: string, ghost stack: seq<string>) returns (raised: bool)
      requires Valid(stack) && id in edges
      requires stack != [] ==> Edge(edges, stack[|stack| - 1], id)
      modifies this
      ensures raised ==> Cyclic(edges)
      ensures !raised ==> Valid(stack) && visiting == old(visiting) && id in visited
      ensures !raised ==> old(visited) <= visited
      decreases edges.Keys - visiting
    {
      hide Cyclic, Ranked;
      if id in visiting {
        StackCycle(edges, stack, id);
        return true;
      }
      if id in visited { return false; }
      visiting := visiting + {id};
      ghost var deeper := stack + [id];
      PathGrows(edges, stack, id);
      ghost var entered := visiting;
      for i := 0 to |edges[id]|
        invariant Valid(deeper) && visiting == entered && old(visited) <= visited
        invariant forall j :: 0 <= j < i ==> edges[id][j] in visited
      {
        assert deeper[|deeper| - 1] == id;
        assert edges[id][i] in edges[id];
        raised := Visit(edges[id][i], deeper);
        if raised { return true; }
      }
      visiting := visiting - {id};
      visited := visited + {id};
      FinishOne(edges, finished, clock, id);
      finished, clock := finished[id := clock], clock + 1;
      assert forall v :: v in stack ==> v in deeper;
      return false;
    }
  }

  lemma PathGrows(g: Graph, stack: seq<string>, id: string)
    requires IsPath(g, stack) && (stack != [] ==> Edge(g, stack[|stack| - 1], id))
    ensures IsPath(g, stack + [id])
  {
  }

  lemma FinishOne(g: Graph, finished: map<string, nat>, clock: nat, id: string)
    requires Ranked(g, finished, clock) && id in g && id !in finished
    requires forall d :: d in g[id] ==> d in finished
    ensures Ranked(g, finished[id := clock], clock + 1)
  {
  }

  lemma StackCycle(g: Graph, stack: seq<string>, id: string)
    requires IsPath(g, stack) && id in stack && Edge(g, stack[|stack| - 1], id)
    ensures Cyclic(g)
  {
    var k :| 0 <= k < |stack| && stack[k] == id;
    var p := stack[k..] + [id];
    forall i | 0 <= i < |p| - 1
      ensures Edge(g, p[i], p[i + 1])
    {
      if i + 1 < |p| - 1 {
        assert Edge(g, stack[k + i], stack[k + i + 1]);
      }
    }
    assert IsCycle(g, p);
  }

  lemma {:induction false} RankFalls(g: Graph, finished: map<string, nat>, clock: nat, p: seq<string>)
    requires Ranked(g, finished, clock) && IsPath(g, p) && |p| >= 2 && p[0] in finished
    ensures p[|p| - 1] in finished && finished[p[|p| - 1]] < finished[p[0]]
    decreases |p|
  {
    assert Edge(g, p[0], p[1]);
    if |p| > 2 {
      var q := p[1..];
      forall i | 0 <= i < |q| - 1
        ensures Edge(g, q[i], q[i + 1])
      {
        assert Edge(g, p[i + 1], p[i + 1 + 1]);
      }
      RankFalls(g, finished, clock, q);
    }
  }

  lemma RankedIsAcyclic(g: Graph, finished: map<string, nat>, clock: nat)
    requires Ranked(g, finished, clock) && g.Keys == finished.Keys
    ensures !Cyclic(g)
  {
    forall p | IsCycle(g, p)
      ensures false
    {
      assert Edge(g, p[0], p[1]);
      RankFalls(g, finished, clock, p);
    }
  }

  /** `_reject_cycles`: terminates on every closed graph and raises exactly on the cyclic ones.
      `order` lists the keys in the order the loop meets them. */
  method RejectCycles(edges: Graph, order: seq<string>) returns (raised: bool)
    requires Closed(edges) && forall v :: v in order <==> v in edges
    ensures raised <==> Cyclic(edges)
  {
    var search := new CycleSearch(edges);
    for i := 0 to |order|
      invariant fresh(search) && search.edges == edges && search.Valid([]) && search.visiting == {}
      invariant forall j :: 0 <= j < i ==> order[j] in search.visited
    {
      raised := search.Visit(order[i], []);
      if raised { return true; }
    }
    assert edges.Keys == search.finished.Keys;
    RankedIsAcyclic(edges, search.finished, search.clock);
    return false;
  }

  // ---- Renaming --------------------------------------------------------------------------------

  ghost predicate InjectiveOn(keys: set<string>, name: string -> string) {
    forall v, w :: v in keys && w in keys && name(v) == name(w) ==> v == w
  }

  /** `w` is the new name of a key of `g`. */
  ghost predicate NewName(g: Graph, name: string -> string, w: string) {
    exists v :: v in g && name(v) == w
  }

  /** `h` is `g` with every key renamed. */
  ghost predicate Renamed(g: Graph, h: Graph, name: string -> string) {
    && (forall w :: w in h <==> NewName(g, name, w))
    && (forall v, d :: v in g && d in g ==> (Edge(g, v, d) <==> Edge(h, name(v), name(d))))
  }

  ghost function Rename(p: seq<string>, name: string -> string): (r: seq<string>)
    ensures |r| == |p| && forall i :: 0 <= i < |p| ==> r[i] == name(p[i])
  {
    seq(|p|, i requires 0 <= i < |p| => name(p[i]))
  }

  lemma PathNodes(g: Graph, p: seq<string>)
    requires Closed(g) && IsPath(g, p) && |p| >= 2
    ensures forall i :: 0 <= i < |p| ==> p[i] in g
  {
    forall i | 0 <= i < |p|
      ensures p[i] in g
    {
      if i == 0 {
        assert Edge(g, p[0], p[1]);
      } else {
        assert Edge(g, p[i - 1], p[i]);
      }
    }
  }

  ghost function Origin(g: Graph, name: string -> string, w: string): (v: string)
    requires NewName(g, name, w)
    ensures v in g && name(v) == w
  {
    var v :| v in g && name(v) == w; v
  }

  /** An injective renaming keeps and reflects cycles. */
  lemma RenamingKeepsCycles(g: Graph, h: Graph, name: string -> string)
    requires Closed(g) && Closed(h) && InjectiveOn(g.Keys, name) && Renamed(g, h, name)
    ensures Cyclic(g) <==> Cyclic(h)
  {
    if Cyclic(g) {
      var p :| IsCycle(g, p);
      PathNodes(g, p);
      var q := Rename(p, name);
      assert forall i :: 0 <= i < |p| - 1 ==> Edge(g, p[i], p[i + 1]);
      assert IsCycle(h, q);
    }
    if Cyclic(h) {
      var q :| IsCycle(h, q);
      PathNodes(h, q);
      var p := seq(|q|, i requires 0 <= i < |q| => Origin(g, name, q[i]));
      forall i | 0 <= i < |p| - 1
        ensures Edge(g, p[i], p[i + 1])
      {
        assert Edge(h, q[i], q[i + 1]);
      }
      assert IsCycle(g, p);
    }
  }
}
