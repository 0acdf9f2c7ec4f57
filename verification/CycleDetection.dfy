/** The depth-first search of `detect_cycles`, with its two shared sets and explicit ancestor chain. */
module CycleDetection {
  import opened Wrappers
  import opened Ordering
  import opened ModuleGraph

  /** What holds at every call of `visit`: `chain` is exactly the modules being expanded. */
  ghost predicate SearchState(g: Graph, visiting: set<string>, visited: set<string>, finished: seq<string>,
                              chain: seq<string>) {
    && Closed(g)
    && Distinct(chain) && (forall n :: n in chain <==> n in visiting)
    && (chain != [] ==> Walk(g, chain))
    && visiting + visited <= g.Keys
    && visiting !! visited
    && (forall n, d :: n in visited && Edge(g, n, d) ==> d in visited)
    && Distinct(finished) && (forall n :: n in finished <==> n in visited)
    && Topological(g, finished)
  }

  lemma Enter(g: Graph, visiting: set<string>, visited: set<string>, finished: seq<string>,
              chain: seq<string>, name: string)
    requires SearchState(g, visiting, visited, finished, chain) && name in g && name !in visiting + visited
    requires chain != [] ==> Edge(g, chain[|chain| - 1], name)
    ensures SearchState(g, visiting + {name}, visited, finished, chain + [name])
  {
  }

  lemma Leave(g: Graph, visiting: set<string>, visited: set<string>, finished: seq<string>,
              chain: seq<string>, name: string)
    requires SearchState(g, visiting, visited, finished, chain + [name]) && name in g && g[name] <= visited
    ensures SearchState(g, visiting - {name}, visited + {name}, finished + [name], chain)
    ensures name !in visited
  {
    var extended := chain + [name];
    assert extended[|chain|] == name;
    forall i, j | 0 <= i < j < |chain| ensures chain[i] != chain[j] {
      assert extended[i] != extended[j];
    }
    forall n ensures n in chain <==> n in visiting - {name} {
      assert n in extended <==> n in chain || n == name;
      if n in chain {
        var i :| 0 <= i < |chain| && chain[i] == n;
        assert extended[i] != extended[|chain|];
      }
    }
    forall i | 0 <= i < |chain| - 1 ensures Edge(g, chain[i], chain[i + 1]) {
      assert Edge(g, extended[i], extended[i + 1]);
    }
    var longer := finished + [name];
    forall i, d | 0 <= i < |longer| && Edge(g, longer[i], d) ensures d in longer[..i] {
      if i < |finished| {
        assert longer[..i] == finished[..i] && Edge(g, finished[i], d);
      } else {
        assert longer[..i] == finished;
      }
    }
  }

  lemma Meet(g: Graph, visiting: set<string>, visited: set<string>, finished: seq<string>,
             chain: seq<string>, name: string)
    requires SearchState(g, visiting, visited, finished, chain) && name in visiting
    requires chain != [] ==> Edge(g, chain[|chain| - 1], name)
    ensures CycleWitness(g, chain + [name])
  {
  }

  /** The first module, in this order, from which a cycle can be reached. */
  ghost predicate FirstOnCycle(g: Graph, order: seq<string>, n: string) {
    exists i :: 0 <= i < |order| && order[i] == n && LeadsToCycle(g, n)
                && forall j :: 0 <= j < i ==> !LeadsToCycle(g, order[j])
  }

  class CycleDetector {
    const graph: Graph
    var visiting: set<string>
    var visited: set<string>
    // The order in which modules entered `visited`, and the number of `visit` calls so far.
    ghost var finished: seq<string>
    ghost var calls: nat

    constructor (graph: Graph)
      ensures this.graph == graph && visiting == {} && visited == {} && finished == [] && calls == 0
    {
      this.graph := graph;
      visiting, visited, finished, calls := {}, {}, [], 0;
    }

    ghost predicate Consistent(chain: seq<string>)
      reads this
    {
      SearchState(graph, visiting, visited, finished, chain)
    }

    /** Calls made beyond one for each edge that leaves a module already expanded. */
    ghost function Surplus(): int
      reads this
      requires visiting + visited <= graph.Keys
    {
      calls - |EdgesFrom(graph, visiting + visited)|
    }

    method Visit(name: string, chain: seq<string>) returns (r: Result<(), seq<string>>)
      requires Consistent(chain) && name in graph
      requires chain != [] ==> Edge(graph, chain[|chain| - 1], name)
      modifies this
      ensures visiting + visited <= graph.Keys
      ensures r.Ok? ==> Consistent(chain) && visiting == old(visiting)
      ensures r.Ok? ==> name in visited && old(visited) <= visited && old(finished) <= finished
      ensures r.Ok? ==> Surplus() == old(Surplus()) + 1
      ensures r.Err? ==> Surplus() <= old(Surplus()) + 1
      ensures r.Err? ==> CycleWitness(graph, r.error) && chain + [name] <= r.error
      decreases graph.Keys - visiting - visited, 0
    {
      calls := calls + 1;
      if name in visiting {
        Meet(graph, visiting, visited, finished, chain, name);
        return Err(chain + [name]);
      }
      if name in visited {
        return Ok(());
      }
      Enter(graph, visiting, visited, finished, chain, name);
      EdgesFromOneMore(graph, visiting + visited, name);
      assert visiting + {name} + visited == visiting + visited + {name};
      visiting := visiting + {name};
      assert name in old(graph.Keys - visiting - visited);
      r := VisitDependencies(name, chain + [name]);
      if r.Ok? {
        Leave(graph, visiting, visited, finished, chain, name);
        assert visiting + visited == visiting - {name} + (visited + {name});
        visiting := visiting - {name};
        visited := visited + {name};
        finished := finished + [name];
      }
    }

    /** The loop of `visit` over the dependencies of `name`, in whatever order the set yields them. */
    method VisitDependencies(name: string, chain: seq<string>) returns (r: Result<(), seq<string>>)
      requires Consistent(chain) && chain != [] && chain[|chain| - 1] == name && name in graph
      modifies this
      ensures visiting + visited <= graph.Keys
      ensures r.Ok? ==> Consistent(chain) && visiting == old(visiting)
      ensures r.Ok? ==> graph[name] <= visited && old(visited) <= visited && old(finished) <= finished
      ensures r.Ok? ==> Surplus() == old(Surplus()) + |graph[name]|
      ensures r.Err? ==> Surplus() <= old(Surplus()) + |graph[name]|
      ensures r.Err? ==> CycleWitness(graph, r.error) && chain <= r.error
      decreases graph.Keys - visiting - visited, 1
    {
      var pending := graph[name];
      while pending != {}
        invariant pending <= graph[name]
        invariant Consistent(chain) && visiting == old(visiting)
        invariant old(visited) <= visited && old(finished) <= finished
        invariant graph[name] - pending <= visited
        invariant Surplus() == old(Surplus()) + |graph[name]| - |pending|
        decreases pending
      {
        var dependency :| dependency in pending;
        assert Edge(graph, name, dependency);
        r := Visit(dependency, chain);
        if r.Err? {
          return;
        }
        pending := pending - {dependency};
      }
      return Ok(());
    }

    /** Visits every declared module; `order` is the order in which the rules happen to be stored. */
    method DetectCycles(order: seq<string>) returns (r: Result<(), seq<string>>)
      requires Closed(graph) && Distinct(order) && forall n :: n in order <==> n in graph
      requires visiting == {} && visited == {} && finished == [] && calls == 0
      modifies this
      ensures r.Ok? <==> Acyclic(graph)
      ensures r.Ok? ==> visiting == {} && visited == graph.Keys
      ensures r.Ok? ==> Topological(graph, finished) && Distinct(finished) && forall n :: n in finished <==> n in graph
      ensures r.Ok? ==> calls == |graph| + |Edges(graph)|
      ensures r.Err? ==> CycleWitness(graph, r.error) && FirstOnCycle(graph, order, r.error[0])
      ensures r.Err? ==> calls <= |graph| + |Edges(graph)|
    {
      assert EdgesFrom(graph, {}) == {};
      for i := 0 to |order|
        invariant Consistent([]) && visiting == {}
        invariant forall j :: 0 <= j < i ==> order[j] in visited
        invariant Surplus() == i
      {
        forall j | 0 <= j < i ensures !LeadsToCycle(graph, order[j]) {
          FinishedAvoidsCycles(graph, finished, order[j]);
        }
        var verdict := Visit(order[i], []);
        if verdict.Err? {
          var _ := WitnessIsCycle(graph, verdict.error);
          assert verdict.error[0] == ([] + [order[i]])[0] == order[i];
          WitnessLeadsToCycle(graph, verdict.error);
          FewerEdges(graph, visiting + visited);
          DistinctCount(order, graph.Keys);
          return verdict;
        }
      }
      assert visited == graph.Keys;
      TopologicalIsAcyclic(graph, finished);
      DistinctCount(order, graph.Keys);
      return Ok(());
    }
  }

  lemma {:induction false} DistinctCount(s: seq<string>, members: set<string>)
    requires Distinct(s) && forall n :: n in s <==> n in members
    ensures |s| == |members|
  {
    if s == [] {
      assert members == {};
    } else {
      var last := s[|s| - 1];
      var rest := s[..|s| - 1];
      assert s == rest + [last];
      DistinctCount(rest, members - {last});
    }
  }
}
