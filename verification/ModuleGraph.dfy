/** Dependency graphs between named modules, their walks, cycles and topological orders. */
module ModuleGraph {
  import opened Ordering

  type Graph = map<string, set<string>>

  /** Every dependency is itself a declared module. */
  ghost predicate Closed(g: Graph) {
    forall n, d :: n in g && d in g[n] ==> d in g
  }

  predicate Edge(g: Graph, a: string, b: string) {
    a in g && b in g[a]
  }

  /** A nonempty sequence of modules in which each one lists the next. */
  ghost predicate Walk(g: Graph, p: seq<string>) {
    p != [] && p[0] in g && forall i :: 0 <= i < |p| - 1 ==> Edge(g, p[i], p[i + 1])
  }

  /** `a` leads to `b` through one or more edges. */
  ghost predicate Reaches(g: Graph, a: string, b: string) {
    exists p :: Walk(g, p) && |p| > 1 && p[0] == a && p[|p| - 1] == b
  }

  ghost predicate Acyclic(g: Graph) {
    forall n :: !Reaches(g, n, n)
  }

  /** Each module comes after everything it lists. */
  ghost predicate Topological(g: Graph, order: seq<string>) {
    forall i, d :: 0 <= i < |order| && Edge(g, order[i], d) ==> d in order[..i]
  }

  /** A chain that walks along edges and then returns to a module it already holds, on a simple cycle. */
  ghost predicate CycleWitness(g: Graph, chain: seq<string>) {
    && |chain| > 1
    && Walk(g, chain)
    && Distinct(chain[..|chain| - 1])
    && chain[|chain| - 1] in chain[..|chain| - 1]
  }

  /** Going along a walk moves strictly towards the front of a topological order. */
  lemma {:induction false} WalkDescends(g: Graph, order: seq<string>, p: seq<string>, i: nat) returns (j: nat)
    requires Topological(g, order) && Walk(g, p) && i < |order| && p[0] == order[i]
    ensures j <= i && p[|p| - 1] == order[j]
    ensures |p| > 1 ==> j < i
    decreases |p|
  {
    if |p| == 1 {
      j := i;
    } else {
      assert Edge(g, p[0], p[1]);
      var k :| 0 <= k < i && order[k] == p[1];
      if |p| == 2 {
        j := k;
      } else {
        assert Edge(g, p[1], p[2]);
        forall m | 0 <= m < |p[1..]| - 1 ensures Edge(g, p[1..][m], p[1..][m + 1]) {
          assert Edge(g, p[m + 1], p[m + 1 + 1]);
        }
        j := WalkDescends(g, order, p[1..], k);
      }
    }
  }

  /** From `n` the edges lead, in zero or more steps, to a module that reaches itself. */
  ghost predicate LeadsToCycle(g: Graph, n: string) {
    exists m :: (m == n || Reaches(g, n, m)) && Reaches(g, m, m)
  }

  /** Nothing in a topological order leads to a cycle, whatever the rest of the graph is like. */
  lemma FinishedAvoidsCycles(g: Graph, order: seq<string>, n: string)
    requires Topological(g, order) && Distinct(order) && n in order
    ensures !LeadsToCycle(g, n)
  {
    if LeadsToCycle(g, n) {
      var m :| (m == n || Reaches(g, n, m)) && Reaches(g, m, m);
      var i :| 0 <= i < |order| && order[i] == n;
      var k := i;
      if m != n {
        var p :| Walk(g, p) && |p| > 1 && p[0] == n && p[|p| - 1] == m;
        k := WalkDescends(g, order, p, i);
      }
      var cycle :| Walk(g, cycle) && |cycle| > 1 && cycle[0] == m && cycle[|cycle| - 1] == m;
      var j := WalkDescends(g, order, cycle, k);
      assert false;
    }
  }

  lemma TopologicalIsAcyclic(g: Graph, order: seq<string>)
    requires Topological(g, order) && Distinct(order)
    requires forall n :: n in g ==> n in order
    ensures Acyclic(g)
  {
    forall n | Reaches(g, n, n) ensures false {
      var p :| Walk(g, p) && |p| > 1 && p[0] == n && p[|p| - 1] == n;
      var i :| 0 <= i < |order| && order[i] == n;
      var j := WalkDescends(g, order, p, i);
    }
  }

  /** The witness really shows a cycle, from the earlier occurrence of its last module on. */
  lemma WitnessIsCycle(g: Graph, chain: seq<string>) returns (k: nat)
    requires CycleWitness(g, chain)
    ensures k < |chain| - 1 && chain[k] == chain[|chain| - 1]
    ensures Walk(g, chain[k..]) && Distinct(chain[k..|chain| - 1])
    ensures Reaches(g, chain[k], chain[k]) && !Acyclic(g)
  {
    var last := |chain| - 1;
    k :| 0 <= k < last && chain[..last][k] == chain[last];
    var cycle := chain[k..];
    assert Edge(g, chain[k], chain[k + 1]);
    forall i | 0 <= i < |cycle| - 1 ensures Edge(g, cycle[i], cycle[i + 1]) {
      assert Edge(g, chain[k + i], chain[k + i + 1]);
    }
    assert Walk(g, cycle) && |cycle| > 1 && cycle[0] == chain[k] && cycle[|cycle| - 1] == chain[k];
    assert Distinct(chain[k..last]) by {
      assert forall i :: 0 <= i < last - k ==> chain[k..last][i] == chain[..last][k + i];
    }
  }

  /** The chain leads from its first module to the cycle that it closes. */
  lemma WitnessLeadsToCycle(g: Graph, chain: seq<string>)
    requires CycleWitness(g, chain)
    ensures LeadsToCycle(g, chain[0])
  {
    var k := WitnessIsCycle(g, chain);
    if k > 0 {
      var walk := chain[..k + 1];
      assert Walk(g, walk) && |walk| > 1 && walk[0] == chain[0] && walk[|walk| - 1] == chain[k];
    }
  }

  /** All edges that leave the modules of `sources`, as pairs. */
  ghost function EdgesFrom(g: Graph, sources: set<string>): set<(string, string)>
    requires forall n :: n in sources ==> n in g
  {
    set n, d | n in sources && d in g[n] :: (n, d)
  }

  ghost function Edges(g: Graph): set<(string, string)> {
    EdgesFrom(g, g.Keys)
  }

  lemma {:induction false} PairsFromOne(n: string, targets: set<string>)
    ensures |set d | d in targets :: (n, d)| == |targets|
  {
    var pairs := set d | d in targets :: (n, d);
    if targets == {} {
      assert pairs == {};
    } else {
      var t :| t in targets;
      PairsFromOne(n, targets - {t});
      assert pairs == (set d | d in targets - {t} :: (n, d)) + {(n, t)};
    }
  }

  lemma {:induction false} SubsetCount<T>(part: set<T>, whole: set<T>)
    requires part <= whole
    ensures |part| <= |whole|
  {
    if part == {} {
    } else {
      var x :| x in part;
      SubsetCount(part - {x}, whole - {x});
    }
  }

  lemma FewerEdges(g: Graph, sources: set<string>)
    requires sources <= g.Keys
    ensures |EdgesFrom(g, sources)| <= |Edges(g)|
  {
    SubsetCount(EdgesFrom(g, sources), Edges(g));
  }

  lemma EdgesFromOneMore(g: Graph, sources: set<string>, n: string)
    requires n in g && n !in sources && forall m :: m in sources ==> m in g
    ensures |EdgesFrom(g, sources + {n})| == |EdgesFrom(g, sources)| + |g[n]|
  {
    var added := set d | d in g[n] :: (n, d);
    assert EdgesFrom(g, sources + {n}) == EdgesFrom(g, sources) + added;
    assert EdgesFrom(g, sources) !! added;
    PairsFromOne(n, g[n]);
  }

  /** A part of an acyclic graph is acyclic, and its walks are walks of the whole. */
  lemma SubgraphWalks(part: Graph, whole: Graph, p: seq<string>)
    requires forall a, b :: Edge(part, a, b) ==> Edge(whole, a, b)
    requires Walk(part, p) && |p| > 1
    ensures Walk(whole, p) && Reaches(whole, p[0], p[|p| - 1])
  {
    assert Edge(part, p[0], p[1]);
  }

  lemma SubgraphAcyclic(part: Graph, whole: Graph)
    requires forall a, b :: Edge(part, a, b) ==> Edge(whole, a, b)
    requires Acyclic(whole)
    ensures Acyclic(part)
  {
    forall n | Reaches(part, n, n) ensures false {
      var p :| Walk(part, p) && |p| > 1 && p[0] == n && p[|p| - 1] == n;
      SubgraphWalks(part, whole, p);
    }
  }
}
