/**
 Component dependency graphs, and the mathematical notion of a cycle that both the
 topological sort and the gene validator are measured against.
 */
module DependencyGraph {
  datatype Component = Component(name: string, iface: string, patterns: string, dependsOn: seq<string>)

  /** Adjacency: every known name with the names it depends on, repetitions kept. */
  type Graph = map<string, seq<string>>

  /** One entry per component; a later component of the same name replaces an earlier one. */
  function GraphOf(components: seq<Component>): Graph {
    if components == [] then map[]
    else
      var last := components[|components| - 1];
      GraphOf(components[..|components| - 1])[last.name := last.dependsOn]
  }

  ghost predicate UniqueNames(components: seq<Component>) {
    forall i, j :: 0 <= i < j < |components| ==> components[i].name != components[j].name
  }

  ghost predicate IsName(components: seq<Component>, n: string) {
    exists c :: c in components && c.name == n
  }

  ghost predicate DependenciesKnown(components: seq<Component>) {
    forall c, d :: c in components && d in c.dependsOn ==> IsName(components, d)
  }

  ghost predicate Edge(g: Graph, a: string, b: string) {
    a in g && b in g[a]
  }

  ghost predicate IsWalk(g: Graph, w: seq<string>) {
    forall i {:trigger w[i]} :: 0 <= i < |w| - 1 ==> Edge(g, w[i], w[i + 1])
  }

  ghost predicate IsCycle(g: Graph, w: seq<string>) {
    |w| >= 2 && w[0] == w[|w| - 1] && IsWalk(g, w)
  }

  ghost predicate HasCycle(g: Graph) {
    exists w :: IsCycle(g, w)
  }

  /** The nodes of s only lead to nodes of s. */
  ghost predicate ClosedUnder(g: Graph, s: set<string>) {
    forall a, b :: a in s && Edge(g, a, b) ==> b in s
  }

  lemma GraphOfKeys(components: seq<Component>)
    ensures forall n :: n in GraphOf(components) <==> IsName(components, n)
  {
    if components != [] {
      var init, last := components[..|components| - 1], components[|components| - 1];
      GraphOfKeys(init);
      assert components == init + [last];
      forall n ensures n in GraphOf(components) <==> IsName(components, n) {
        if n == last.name {
          assert last in components;
        } else if IsName(components, n) {
          var c :| c in components && c.name == n;
          assert c in init;
        }
      }
    }
  }

  /** With unique names the graph records exactly each component's own dependency list. */
  lemma {:induction false} GraphOfUnique(components: seq<Component>)
    requires UniqueNames(components)
    ensures forall c :: c in components ==> c.name in GraphOf(components) && GraphOf(components)[c.name] == c.dependsOn
  {
    if components != [] {
      var init, last := components[..|components| - 1], components[|components| - 1];
      GraphOfUnique(init);
      assert components == init + [last];
    }
  }

  ghost predicate LeadsInto(g: Graph, s: set<string>, a: string) {
    exists b :: b in s && Edge(g, a, b)
  }

  /** Every node of s depends on another node of s. */
  ghost predicate Trapped(g: Graph, s: set<string>) {
    forall a {:trigger LeadsInto(g, s, a)} :: a in s ==> LeadsInto(g, s, a)
  }

  /** A nonempty trapped set contains a cycle. */
  lemma TrappedSetHasCycle(g: Graph, s: set<string>)
    requires s != {} && Trapped(g, s)
    ensures HasCycle(g)
  {
    var a :| a in s;
    ExtendWalk(g, s, [a], s);
  }

  lemma AppendToWalk(g: Graph, w: seq<string>, next: string)
    requires w != [] && IsWalk(g, w) && Edge(g, w[|w| - 1], next)
    ensures IsWalk(g, w + [next])
  {
    var longer := w + [next];
    forall i {:trigger longer[i]} | 0 <= i < |longer| - 1 ensures Edge(g, longer[i], longer[i + 1]) {
      if i < |w| - 1 {
        assert Edge(g, w[i], w[i + 1]);
      }
    }
  }

  /** A walk that returns to one of its own nodes closes a cycle there. */
  lemma CloseCycle(g: Graph, w: seq<string>, k: nat)
    requires k < |w| - 1 && IsWalk(g, w) && w[k] == w[|w| - 1]
    ensures IsCycle(g, w[k..])
  {
    var cycle := w[k..];
    forall i {:trigger cycle[i]} | 0 <= i < |cycle| - 1 ensures Edge(g, cycle[i], cycle[i + 1]) {
      assert Edge(g, w[k + i], w[k + i + 1]);
    }
  }

  /** Keep walking inside s; a finite set forces the walk to meet itself. */
  lemma {:induction false} ExtendWalk(g: Graph, s: set<string>, w: seq<string>, unseen: set<string>)
    requires w != [] && IsWalk(g, w) && w[|w| - 1] in s
    requires forall x :: x in s ==> x in w || x in unseen
    requires Trapped(g, s)
    ensures HasCycle(g)
    decreases unseen
  {
    assert LeadsInto(g, s, w[|w| - 1]);
    var next :| next in s && Edge(g, w[|w| - 1], next);
    AppendToWalk(g, w, next);
    if next in w {
      var k :| 0 <= k < |w| && w[k] == next;
      CloseCycle(g, w + [next], k);
    } else {
      ExtendWalk(g, s, w + [next], unseen - {next});
    }
  }

  /** A walk that starts in a closed set stays there. */
  lemma {:induction false} WalkStaysInside(g: Graph, s: set<string>, w: seq<string>, k: nat)
    requires ClosedUnder(g, s) && IsWalk(g, w)
    requires k < |w| && w[0] in s
    ensures w[k] in s
  {
    if k > 0 {
      WalkStaysInside(g, s, w, k - 1);
      assert Edge(g, w[k - 1], w[k]);
    }
  }

  /** Dependency-first order: everything position i depends on stands before i. */
  ghost predicate DependencyFirst(sorted: seq<Component>) {
    forall i, d :: 0 <= i < |sorted| && d in sorted[i].dependsOn ==>
      exists j :: 0 <= j < i && sorted[j].name == d
  }

  /** A graph whose nodes can be numbered so that edges go down has no cycle. */
  lemma {:induction false} RankedWalkDescends(g: Graph, rank: map<string, nat>, w: seq<string>, k: nat)
    requires IsWalk(g, w) && 0 < k < |w|
    requires forall a, b :: Edge(g, a, b) ==> a in rank && b in rank && rank[b] < rank[a]
    ensures w[0] in rank && w[k] in rank && rank[w[k]] < rank[w[0]]
  {
    assert Edge(g, w[k - 1], w[k]);
    if k > 1 {
      RankedWalkDescends(g, rank, w, k - 1);
    }
  }
}
