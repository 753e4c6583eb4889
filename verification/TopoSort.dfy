/** Kahn's algorithm over gene components, as the composed run uses it. */
module TopoSort {
  import opened Wrappers
  import opened DependencyGraph

  datatype SortError = UnknownDependency(component: string, dependency: string) | CycleDetected

  type Degrees = map<string, int>
  type Dependents = map<string, seq<string>>

  /** Looking up a missing key gives the empty list. */
  function Lookup(m: Dependents, d: string): seq<string> {
    if d in m then m[d] else []
  }

  /** How many dependency entries the components named n declare. */
  function Declared(components: seq<Component>, n: string): nat {
    if components == [] then 0
    else
      var last := components[|components| - 1];
      Declared(components[..|components| - 1], n) + if last.name == n then |last.dependsOn| else 0
  }

  /** How many of those entries are d. */
  function Entries(components: seq<Component>, n: string, d: string): nat {
    if components == [] then 0
    else
      var last := components[|components| - 1];
      Entries(components[..|components| - 1], n, d) + if last.name == n then multiset(last.dependsOn)[d] else 0
  }

  /** Dependency entries that still wait for a node outside done. */
  function Open(deps: seq<string>, done: set<string>): nat {
    if deps == [] then 0
    else Open(deps[..|deps| - 1], done) + if deps[|deps| - 1] in done then 0 else 1
  }

  lemma {:induction false} OpenNothingDone(deps: seq<string>)
    ensures Open(deps, {}) == |deps|
  {
    if deps != [] { OpenNothingDone(deps[..|deps| - 1]); }
  }

  lemma {:induction false} OpenZero(deps: seq<string>, done: set<string>)
    ensures Open(deps, done) == 0 <==> forall d :: d in deps ==> d in done
  {
    if deps != [] {
      var init := deps[..|deps| - 1];
      OpenZero(init, done);
      assert deps == init + [deps[|deps| - 1]];
    }
  }

  /** Finishing one more node closes exactly its own entries. */
  lemma {:induction false} OpenAfter(deps: seq<string>, done: set<string>, n: string)
    requires n !in done
    ensures Open(deps, done + {n}) + multiset(deps)[n] == Open(deps, done)
  {
    if deps != [] {
      var init := deps[..|deps| - 1];
      OpenAfter(init, done, n);
      assert deps == init + [deps[|deps| - 1]];
    }
  }

  lemma {:induction false} CountsUnique(components: seq<Component>, c: Component)
    requires UniqueNames(components) && c in components
    ensures Declared(components, c.name) == |c.dependsOn|
    ensures forall d :: Entries(components, c.name, d) == multiset(c.dependsOn)[d]
  {
    var init, last := components[..|components| - 1], components[|components| - 1];
    assert components == init + [last];
    if c == last {
      assert forall x :: x in init ==> x.name != c.name;
      CountsAbsent(init, c.name);
    } else {
      CountsUnique(init, c);
    }
  }

  lemma {:induction false} CountsAbsent(components: seq<Component>, n: string)
    requires forall c :: c in components ==> c.name != n
    ensures Declared(components, n) == 0
    ensures forall d :: Entries(components, n, d) == 0
  {
    if components != [] {
      var init := components[..|components| - 1];
      assert forall c :: c in init ==> c in components;
      CountsAbsent(init, n);
    }
  }

  lemma PrefixStep(components: seq<Component>, i: nat)
    requires i < |components|
    ensures forall n :: Declared(components[..i + 1], n)
                        == Declared(components[..i], n)
                           + if components[i].name == n then |components[i].dependsOn| else 0
    ensures forall n, d :: Entries(components[..i + 1], n, d)
                        == Entries(components[..i], n, d)
                           + if components[i].name == n then multiset(components[i].dependsOn)[d] else 0
  {
    assert components[..i + 1][..i] == components[..i];
  }

  /** byName holds, under each component name, a component of that name. */
  ghost predicate Indexes(components: seq<Component>, byName: map<string, Component>) {
    && (forall n :: n in byName <==> IsName(components, n))
    && forall n :: n in byName ==> byName[n] in components && byName[n].name == n
  }

  /** Names of all components, and the last component under each. */
  method IndexByName(components: seq<Component>) returns (byName: map<string, Component>, inDegree: Degrees)
    ensures Indexes(components, byName)
    ensures inDegree.Keys == byName.Keys && forall n :: n in inDegree ==> inDegree[n] == 0
  {
    byName, inDegree := map[], map[];
    for i := 0 to |components|
      invariant forall n :: n in byName <==> IsName(components[..i], n)
      invariant forall n :: n in byName ==> byName[n] in components && byName[n].name == n
      invariant inDegree.Keys == byName.Keys && forall n :: n in inDegree ==> inDegree[n] == 0
    {
      var c := components[i];
      assert components[..i + 1] == components[..i] + [c];
      assert forall x :: x in components[..i] ==> x in components[..i + 1];
      assert c in components[..i + 1];
      byName := byName[c.name := c];
      inDegree := inDegree[c.name := 0];
    }
    assert components[..|components|] == components;
  }

  /** err tells of dependency j of c, the first that is missing. */
  ghost predicate FirstNotIn(byName: map<string, Component>, c: Component, err: SortError, j: nat) {
    && j < |c.dependsOn| && c.dependsOn[j] !in byName && (forall k :: 0 <= k < j ==> c.dependsOn[k] in byName)
    && err == UnknownDependency(c.name, c.dependsOn[j])
  }

  /** Checks one component's dependencies and adds them to its in-degree. */
  method CountDependencies(byName: map<string, Component>, c: Component, before: Degrees)
    returns (r: Result<Degrees, SortError>)
    requires c.name in before
    ensures r.Ok? <==> forall d :: d in c.dependsOn ==> d in byName
    ensures r.Ok? ==> r.value == before[c.name := before[c.name] + |c.dependsOn|]
    ensures r.Err? ==> exists j :: FirstNotIn(byName, c, r.error, j)
  {
    var inDegree := before;
    for j := 0 to |c.dependsOn|
      invariant forall d :: d in c.dependsOn[..j] ==> d in byName
      invariant inDegree == before[c.name := before[c.name] + j]
    {
      var dep := c.dependsOn[j];
      if dep !in byName {
        assert FirstNotIn(byName, c, UnknownDependency(c.name, dep), j);
        return Err(UnknownDependency(c.name, dep));
      }
      inDegree := inDegree[c.name := inDegree[c.name] + 1];
    }
    assert c.dependsOn[..|c.dependsOn|] == c.dependsOn;
    return Ok(inDegree);
  }

  /** inDegree holds, per name, the dependency entries of the first i components. */
  ghost predicate Counts(components: seq<Component>, i: nat, inDegree: Degrees)
    requires i <= |components|
  {
    forall n :: n in inDegree ==> inDegree[n] == Declared(components[..i], n)
  }

  lemma CountsStep(components: seq<Component>, i: nat, inDegree: Degrees)
    requires i < |components| && Counts(components, i, inDegree) && components[i].name in inDegree
    ensures var c := components[i]; Counts(components, i + 1, inDegree[c.name := inDegree[c.name] + |c.dependsOn|])
  {
    PrefixStep(components, i);
  }

  lemma CountsStart(components: seq<Component>, inDegree: Degrees)
    requires forall n :: n in inDegree ==> inDegree[n] == 0
    ensures Counts(components, 0, inDegree)
  {
  }

  lemma CountsEnd(components: seq<Component>, inDegree: Degrees)
    requires Counts(components, |components|, inDegree)
    ensures forall n :: n in inDegree ==> inDegree[n] == Declared(components, n)
  {
    assert components[..|components|] == components;
  }

  /** The first i components depend on known names only. */
  ghost predicate KnownUpTo(components: seq<Component>, i: nat)
    requires i <= |components|
  {
    forall k, d :: 0 <= k < i && d in components[k].dependsOn ==> IsName(components, d)
  }

  /** err tells of dependency j of component i, the first that is unknown. */
  ghost predicate FirstUnknown(components: seq<Component>, err: SortError, i: nat, j: nat) {
    && i < |components| && j < |components[i].dependsOn| && KnownUpTo(components, i)
    && !IsName(components, components[i].dependsOn[j])
    && (forall k :: 0 <= k < j ==> IsName(components, components[i].dependsOn[k]))
    && err == UnknownDependency(components[i].name, components[i].dependsOn[j])
  }

  /** Validates dependencies and counts, per name, the declared dependency entries. */
  method BuildTopoGraph(components: seq<Component>)
    returns (r: Result<(map<string, Component>, Degrees), SortError>)
    ensures r.Ok? <==> DependenciesKnown(components)
    ensures r.Err? ==> exists i, j :: FirstUnknown(components, r.error, i, j)
    ensures r.Ok? ==> Indexes(components, r.value.0) && r.value.1.Keys == r.value.0.Keys
    ensures r.Ok? ==> forall n :: n in r.value.1 ==> r.value.1[n] == Declared(components, n)
  {
    var byName, inDegree := IndexByName(components);
    CountsStart(components, inDegree);
    for i := 0 to |components|
      invariant inDegree.Keys == byName.Keys
      invariant KnownUpTo(components, i)
      invariant Counts(components, i, inDegree)
    {
      var c := components[i];
      assert c in components;
      assert IsName(components, c.name);
      var counted := CountDependencies(byName, c, inDegree);
      if counted.Err? {
        ghost var j :| FirstNotIn(byName, c, counted.error, j);
        assert FirstUnknown(components, counted.error, i, j);
        return Err(counted.error);
      }
      CountsStep(components, i, inDegree);
      inDegree := counted.value;
    }
    CountsEnd(components, inDegree);
    return Ok((byName, inDegree));
  }

  /** after lists name under every dependency once more per entry of deps than before. */
  ghost predicate Listed(before: Dependents, after: Dependents, name: string, deps: seq<string>) {
    forall n, d :: ListedUnder(before, after, name, deps, n, d)
  }

  ghost predicate ListedUnder(before: Dependents, after: Dependents, name: string, deps: seq<string>,
                              n: string, d: string) {
    Times(after, n, d) == Times(before, n, d) + (if name == n then multiset(deps)[d] else 0)
  }

  /** How often n is listed under d. */
  ghost function Times(dependents: Dependents, n: string, d: string): nat {
    multiset(Lookup(dependents, d))[n]
  }

  lemma PushCounts(s: seq<string>, x: string, y: string)
    ensures multiset(s + [x])[y] == multiset(s)[y] + (if x == y then 1 else 0)
  {
  }

  lemma ListOneMore(before: Dependents, after: Dependents, name: string, deps: seq<string>, dep: string)
    requires Listed(before, after, name, deps)
    ensures Listed(before, after[dep := Lookup(after, dep) + [name]], name, deps + [dep])
  {
    var more := after[dep := Lookup(after, dep) + [name]];
    forall n, d ensures ListedUnder(before, more, name, deps + [dep], n, d) {
      assert ListedUnder(before, after, name, deps, n, d);
      PushCounts(deps, dep, d);
      PushCounts(Lookup(after, dep), name, n);
      assert Times(more, n, d) == Times(after, n, d) + (if d == dep && n == name then 1 else 0);
    }
  }

  /** Every list of after is that of before with more entries for name behind it. */
  ghost predicate Grown(before: Dependents, after: Dependents, name: string) {
    forall d :: GrownAt(Lookup(before, d), Lookup(after, d), name)
  }

  ghost predicate GrownAt(list: seq<string>, longer: seq<string>, name: string) {
    |list| <= |longer| && longer[..|list|] == list && forall k :: |list| <= k < |longer| ==> longer[k] == name
  }

  lemma GrowOne(before: Dependents, after: Dependents, name: string, dep: string)
    requires Grown(before, after, name)
    ensures Grown(before, after[dep := Lookup(after, dep) + [name]], name)
  {
    var more := after[dep := Lookup(after, dep) + [name]];
    forall d ensures GrownAt(Lookup(before, d), Lookup(more, d), name) {
      assert GrownAt(Lookup(before, d), Lookup(after, d), name);
    }
  }

  /** Lists c once per dependency entry under the dependency. */
  method AddDependents(before: Dependents, c: Component) returns (after: Dependents)
    ensures Listed(before, after, c.name, c.dependsOn) && Grown(before, after, c.name)
  {
    after := before;
    for j := 0 to |c.dependsOn|
      invariant Listed(before, after, c.name, c.dependsOn[..j]) && Grown(before, after, c.name)
    {
      var dep := c.dependsOn[j];
      assert c.dependsOn[..j + 1] == c.dependsOn[..j] + [dep];
      ListOneMore(before, after, c.name, c.dependsOn[..j], dep);
      GrowOne(before, after, c.name, dep);
      after := after[dep := Lookup(after, dep) + [c.name]];
    }
    assert c.dependsOn[..|c.dependsOn|] == c.dependsOn;
  }

  lemma EntriesStep(components: seq<Component>, i: nat, before: Dependents, after: Dependents)
    requires i < |components| && Listed(before, after, components[i].name, components[i].dependsOn)
    requires forall n, d :: Times(before, n, d) == Entries(components[..i], n, d)
    ensures forall n, d :: Times(after, n, d) == Entries(components[..i + 1], n, d)
  {
    PrefixStep(components, i);
    forall n, d ensures Times(after, n, d) == Entries(components[..i + 1], n, d) {
      assert ListedUnder(before, after, components[i].name, components[i].dependsOn, n, d);
      assert Times(before, n, d) == Entries(components[..i], n, d);
    }
  }

  /** Where the component of this name stands in the list. */
  ghost function Index(components: seq<Component>, n: string): (i: nat)
    requires IsName(components, n)
    ensures i < |components| && components[i].name == n
  {
    var i :| 0 <= i < |components| && components[i].name == n;
    i
  }

  lemma IndexIs(components: seq<Component>, i: nat)
    requires UniqueNames(components) && i < |components|
    ensures IsName(components, components[i].name) && Index(components, components[i].name) == i
  {
    assert components[i] in components;
  }

  /** Dependents lists are in component order. */
  ghost predicate ListedInOrder(components: seq<Component>, list: seq<string>) {
    && (forall y :: y in list ==> IsName(components, y))
    && forall i, j :: 0 <= i < j < |list| ==> Index(components, list[i]) <= Index(components, list[j])
  }

  /** The lists hold names of the first n components, in component order. */
  ghost predicate InOrderBelow(components: seq<Component>, dependents: Dependents, n: nat) {
    forall d :: OrderedBelow(components, Lookup(dependents, d), n)
  }

  ghost predicate OrderedBelow(components: seq<Component>, list: seq<string>, n: nat) {
    ListedInOrder(components, list) && forall y :: y in list ==> Index(components, y) < n
  }

  lemma OrderGrows(components: seq<Component>, list: seq<string>, longer: seq<string>, i: nat)
    requires UniqueNames(components) && i < |components| && OrderedBelow(components, list, i)
    requires GrownAt(list, longer, components[i].name)
    ensures OrderedBelow(components, longer, i + 1)
  {
    IndexIs(components, i);
    assert forall k :: 0 <= k < |list| ==> longer[k] == list[k];
  }

  lemma OrdersGrow(components: seq<Component>, before: Dependents, after: Dependents, i: nat)
    requires UniqueNames(components) && i < |components| && InOrderBelow(components, before, i)
    requires Grown(before, after, components[i].name)
    ensures InOrderBelow(components, after, i + 1)
  {
    forall d ensures OrderedBelow(components, Lookup(after, d), i + 1) {
      assert GrownAt(Lookup(before, d), Lookup(after, d), components[i].name);
      assert OrderedBelow(components, Lookup(before, d), i);
      OrderGrows(components, Lookup(before, d), Lookup(after, d), i);
    }
  }

  /** Reverse adjacency: dependency -> the names declaring it, once per entry. */
  method BuildDependents(components: seq<Component>) returns (dependents: Dependents)
    ensures forall n, d :: Times(dependents, n, d) == Entries(components, n, d)
    ensures UniqueNames(components) ==> InOrderBelow(components, dependents, |components|)
  {
    dependents := map[];
    for i := 0 to |components|
      invariant forall n, d :: Times(dependents, n, d) == Entries(components[..i], n, d)
      invariant UniqueNames(components) ==> InOrderBelow(components, dependents, i)
    {
      ghost var before := dependents;
      dependents := AddDependents(dependents, components[i]);
      EntriesStep(components, i, before, dependents);
      if UniqueNames(components) {
        OrdersGrow(components, before, dependents, i);
      }
    }
    assert components[..|components|] == components;
  }

  ghost function ToSet(s: seq<string>): set<string> {
    set x | x in s
  }

  ghost predicate Distinct(s: seq<string>) {
    forall i, j :: 0 <= i < j < |s| ==> s[i] != s[j]
  }

  ghost predicate DoneOrdered(g: Graph, done: seq<string>)
  {
    forall i, d :: 0 <= i < |done| && Edge(g, done[i], d) ==> d in done[..i]
  }

  /** The dependents map agrees with the graph: n waits for d once per entry of n. */
  ghost predicate Mirrors(g: Graph, dependents: Dependents) {
    && (forall n, d :: n in g ==> multiset(Lookup(dependents, d))[n] == multiset(g[n])[d])
    && forall n, d :: n in Lookup(dependents, d) ==> n in g
  }

  /**
   The invariant of the sort. pending holds the dependents of the last finished node
   whose in-degree has not been lowered yet; it is empty between two dequeues.
   */
  ghost predicate KahnInv(g: Graph, inDegree: Degrees, queue: seq<string>, done: seq<string>, pending: seq<string>) {
    && inDegree.Keys == g.Keys
    && (forall n :: n in pending ==> n in g)
    && (forall n :: n in g ==> inDegree[n] == Open(g[n], ToSet(done)) + multiset(pending)[n])
    && Distinct(done) && Distinct(queue)
    && (forall n :: n in queue ==> n !in done)
    && (forall n :: n in done || n in queue <==> n in g && inDegree[n] == 0)
    && DoneOrdered(g, done)
  }

  lemma KahnDequeue(g: Graph, inDegree: Degrees, queue: seq<string>, done: seq<string>, dependents: Dependents)
    requires KahnInv(g, inDegree, queue, done, []) && queue != [] && Mirrors(g, dependents)
    ensures KahnInv(g, inDegree, queue[1..], done + [queue[0]], Lookup(dependents, queue[0]))
  {
    var name := queue[0];
    var done' := done + [name];
    assert queue == [name] + queue[1..];
    assert ToSet(done') == ToSet(done) + {name};
    forall n | n in g
      ensures inDegree[n] == Open(g[n], ToSet(done')) + multiset(Lookup(dependents, name))[n]
    {
      OpenAfter(g[n], ToSet(done), name);
    }
    OpenZero(g[name], ToSet(done));
    forall i, d | 0 <= i < |done'| && Edge(g, done'[i], d) ensures d in done'[..i] {
      if i < |done| {
        assert done'[..i] == done[..i];
      } else {
        assert done'[..i] == done;
      }
    }
  }

  function Lower(inDegree: Degrees, n: string): Degrees
    requires n in inDegree
  {
    inDegree[n := inDegree[n] - 1]
  }

  function Enqueue(queue: seq<string>, inDegree: Degrees, n: string): seq<string>
    requires n in inDegree
  {
    if inDegree[n] == 0 then queue + [n] else queue
  }

  lemma KahnDecrement(g: Graph, inDegree: Degrees, queue: seq<string>, done: seq<string>, pending: seq<string>)
    requires KahnInv(g, inDegree, queue, done, pending) && pending != []
    ensures KahnInv(g, Lower(inDegree, pending[0]), Enqueue(queue, Lower(inDegree, pending[0]), pending[0]),
                    done, pending[1..])
  {
    var n, rest := pending[0], pending[1..];
    var lowered := Lower(inDegree, n);
    var queue' := Enqueue(queue, lowered, n);
    assert pending == [n] + rest;
    forall m | m in g
      ensures lowered[m] == Open(g[m], ToSet(done)) + multiset(rest)[m]
    {
      assert multiset(pending)[m] == multiset(rest)[m] + if m == n then 1 else 0;
    }
    assert inDegree[n] > 0;
    assert n !in done && n !in queue;
  }

  // ---- first come, first served ----

  /** Position of the last finished name among deps, -1 if none has finished. */
  ghost function LastDone(done: seq<string>, deps: seq<string>): (p: int)
    ensures -1 <= p < |done|
    ensures p >= 0 ==> done[p] in deps
    ensures forall q :: p < q < |done| ==> done[q] !in deps
  {
    if done == [] then -1
    else if done[|done| - 1] in deps then |done| - 1
    else LastDone(done[..|done| - 1], deps)
  }

  /** x comes before y: its last dependency finished earlier, or they waited for the same one and x is listed first. */
  ghost predicate Sooner(components: seq<Component>, g: Graph, done: seq<string>, x: string, y: string) {
    && x in g && y in g && IsName(components, x) && IsName(components, y)
    && var p, q := LastDone(done, g[x]), LastDone(done, g[y]);
       p < q || (p == q && Index(components, x) < Index(components, y))
  }

  /** names are in order. */
  ghost predicate Queued(components: seq<Component>, g: Graph, done: seq<string>, names: seq<string>) {
    forall i, j :: 0 <= i < j < |names| ==> Sooner(components, g, done, names[i], names[j])
  }

  /** The names still to be lowered wait for the last finished one, in component order, behind those it has released. */
  ghost predicate Waiting(components: seq<Component>, g: Graph, done: seq<string>, names: seq<string>,
                          pending: seq<string>)
  {
    && ListedInOrder(components, pending)
    && (forall y :: y in pending ==> y in g && done != [] && done[|done| - 1] in g[y])
    && forall x, y :: x in names && y in pending && x in g && done[|done| - 1] in g[x] ==>
         IsName(components, x) && Index(components, x) < Index(components, y)
  }

  lemma LastDoneSnoc(done: seq<string>, name: string, deps: seq<string>)
    ensures LastDone(done + [name], deps) == if name in deps then |done| else LastDone(done, deps)
  {
    assert (done + [name])[..|done|] == done;
  }

  /** Nothing queued depends on a name that is only now finished. */
  lemma QueuedIsReady(g: Graph, inDegree: Degrees, queue: seq<string>, done: seq<string>, x: string)
    requires KahnInv(g, inDegree, queue, done, []) && queue != [] && (x in done || x in queue)
    ensures x in g && queue[0] !in g[x]
  {
    OpenZero(g[x], ToSet(done));
    assert queue[0] in queue;
  }

  lemma FifoDequeue(components: seq<Component>, g: Graph, inDegree: Degrees, queue: seq<string>, done: seq<string>,
                    waiting: seq<string>)
    requires KahnInv(g, inDegree, queue, done, []) && queue != [] && ListedInOrder(components, waiting)
    requires Queued(components, g, done, done + queue) && forall y :: y in waiting ==> y in g && queue[0] in g[y]
    ensures done + [queue[0]] + queue[1..] == done + queue
    ensures Queued(components, g, done + [queue[0]], done + queue)
    ensures Waiting(components, g, done + [queue[0]], done + queue, waiting)
  {
    var names, done' := done + queue, done + [queue[0]];
    assert queue == [queue[0]] + queue[1..];
    forall x | x in names ensures x in g && queue[0] !in g[x] && LastDone(done', g[x]) == LastDone(done, g[x]) {
      QueuedIsReady(g, inDegree, queue, done, x);
      LastDoneSnoc(done, queue[0], g[x]);
    }
    forall i, j | 0 <= i < j < |names| ensures Sooner(components, g, done', names[i], names[j]) {
      assert names[i] in names && names[j] in names;
    }
  }

  /** A name released last comes after everything queued before. */
  lemma SoonerThanReleased(components: seq<Component>, g: Graph, done: seq<string>, names: seq<string>,
                           pending: seq<string>, x: string)
    requires Waiting(components, g, done, names, pending) && pending != []
    requires x in names && x in g && IsName(components, x)
    ensures Sooner(components, g, done, x, pending[0])
  {
    assert pending[0] in pending;
    assert LastDone(done, g[pending[0]]) == |done| - 1;
  }

  lemma QueuedOneMore(components: seq<Component>, g: Graph, done: seq<string>, names: seq<string>, n: string)
    requires Queued(components, g, done, names) && forall x :: x in names ==> Sooner(components, g, done, x, n)
    ensures Queued(components, g, done, names + [n])
  {
  }

  lemma FifoEnqueue(components: seq<Component>, g: Graph, done: seq<string>, names: seq<string>, pending: seq<string>)
    requires Waiting(components, g, done, names, pending) && pending != [] && pending[0] !in pending[1..]
    requires Queued(components, g, done, names) && forall x :: x in names ==> x in g && IsName(components, x)
    ensures Queued(components, g, done, names + [pending[0]])
    ensures Waiting(components, g, done, names + [pending[0]], pending[1..])
  {
    forall x | x in names ensures Sooner(components, g, done, x, pending[0]) {
      SoonerThanReleased(components, g, done, names, pending, x);
    }
    QueuedOneMore(components, g, done, names, pending[0]);
    WaitingOneLess(components, g, done, names, pending);
  }

  lemma WaitingOneLess(components: seq<Component>, g: Graph, done: seq<string>, names: seq<string>,
                       pending: seq<string>)
    requires Waiting(components, g, done, names, pending) && pending != [] && pending[0] !in pending[1..]
    ensures Waiting(components, g, done, names + [pending[0]], pending[1..])
  {
    assert pending[0] in pending;
    FifoPass(components, g, done, names, pending);
    ListedInOrderFirst(components, pending);
    WaitingBehind(components, g, done, names, pending[1..], pending[0]);
  }

  lemma ListedInOrderFirst(components: seq<Component>, pending: seq<string>)
    requires ListedInOrder(components, pending) && pending != [] && pending[0] !in pending[1..]
    ensures forall y :: y in pending[1..] ==> IsName(components, y)
                                              && Index(components, pending[0]) < Index(components, y)
  {
    var n, rest := pending[0], pending[1..];
    forall y | y in rest ensures IsName(components, y) && Index(components, n) < Index(components, y) {
      var j :| 0 <= j < |rest| && rest[j] == y;
      assert pending[j + 1] == y;
    }
  }

  lemma WaitingBehind(components: seq<Component>, g: Graph, done: seq<string>, names: seq<string>, rest: seq<string>,
                      n: string)
    requires Waiting(components, g, done, names, rest) && IsName(components, n)
    requires forall y :: y in rest ==> Index(components, n) < Index(components, y)
    ensures Waiting(components, g, done, names + [n], rest)
  {
  }

  lemma FifoPass(components: seq<Component>, g: Graph, done: seq<string>, names: seq<string>, pending: seq<string>)
    requires Waiting(components, g, done, names, pending) && pending != []
    ensures Waiting(components, g, done, names, pending[1..])
  {
    ListedInOrderTail(components, pending);
    assert forall y :: y in pending[1..] ==> y in pending;
  }

  lemma ListedInOrderTail(components: seq<Component>, list: seq<string>)
    requires ListedInOrder(components, list) && list != []
    ensures ListedInOrder(components, list[1..])
  {
    forall i, j | 0 <= i < j < |list[1..]|
      ensures Index(components, list[1..][i]) <= Index(components, list[1..][j])
    {
      assert list[1..][i] == list[i + 1] && list[1..][j] == list[j + 1];
    }
  }

  /** A name whose count reaches zero has no further entry to lower. */
  lemma LastEntry(g: Graph, inDegree: Degrees, queue: seq<string>, done: seq<string>, pending: seq<string>)
    requires KahnInv(g, inDegree, queue, done, pending) && pending != [] && pending[0] in inDegree
    requires Lower(inDegree, pending[0])[pending[0]] == 0
    ensures pending[0] !in pending[1..]
  {
    KahnDecrement(g, inDegree, queue, done, pending);
    assert multiset(pending[1..])[pending[0]] == 0;
  }

  lemma QueuedNames(g: Graph, inDegree: Degrees, queue: seq<string>, done: seq<string>, pending: seq<string>)
    requires KahnInv(g, inDegree, queue, done, pending)
    ensures forall x :: x in done + queue || x in pending ==> x in g
    ensures inDegree.Keys == g.Keys
  {
  }

  /** One decrement. */
  lemma FifoDecrement(components: seq<Component>, g: Graph, inDegree: Degrees, queue: seq<string>, done: seq<string>,
                      pending: seq<string>)
    requires KahnInv(g, inDegree, queue, done, pending) && pending != []
    requires Queued(components, g, done, done + queue) && Waiting(components, g, done, done + queue, pending)
    requires forall x :: x in g ==> IsName(components, x)
    ensures var queue' := Enqueue(queue, Lower(inDegree, pending[0]), pending[0]);
            && Queued(components, g, done, done + queue')
            && Waiting(components, g, done, done + queue', pending[1..])
  {
    var n, lowered := pending[0], Lower(inDegree, pending[0]);
    QueuedNames(g, inDegree, queue, done, pending);
    if lowered[n] == 0 {
      LastEntry(g, inDegree, queue, done, pending);
      assert done + (queue + [n]) == done + queue + [n];
      FifoEnqueue(components, g, done, done + queue, pending);
    } else {
      FifoPass(components, g, done, done + queue, pending);
    }
  }

  /** All names were sorted: the finishing order ranks the graph, so it has no cycle. */
  lemma AllDoneAcyclic(g: Graph, inDegree: Degrees, done: seq<string>)
    requires KahnInv(g, inDegree, [], done, []) && forall n :: n in g ==> n in done
    ensures !HasCycle(g)
  {
    var rank := map n | n in g :: Position(done, n);
    forall a, b | Edge(g, a, b) ensures a in rank && b in rank && rank[b] < rank[a] {
      var i := rank[a];
      assert b in g[done[i]];
      var j :| 0 <= j < i && done[..i][j] == b;
      assert done[j] == b;
      assert b in done;
    }
    forall w ensures !IsCycle(g, w) {
      if IsCycle(g, w) {
        RankedWalkDescends(g, rank, w, |w| - 1);
      }
    }
  }

  ghost function Position(s: seq<string>, n: string): (i: nat)
    requires n in s
    ensures i < |s| && s[i] == n
  {
    if s[|s| - 1] == n then |s| - 1
    else
      assert s == s[..|s| - 1] + [s[|s| - 1]];
      Position(s[..|s| - 1], n)
  }

  /** Some name was never sorted: the unsorted names trap every walk among themselves. */
  lemma LeftoverIsCyclic(g: Graph, inDegree: Degrees, done: seq<string>)
    requires KahnInv(g, inDegree, [], done, []) && exists n :: n in g && n !in done
    requires forall a, b :: Edge(g, a, b) ==> b in g
    ensures HasCycle(g)
  {
    var rest := set n | n in g && n !in done;
    var n :| n in g && n !in done;
    assert n in rest;
    forall a | a in rest ensures LeadsInto(g, rest, a) {
      OpenZero(g[a], ToSet(done));
      var b :| b in g[a] && b !in ToSet(done);
      assert Edge(g, a, b) && b in rest;
    }
    TrappedSetHasCycle(g, rest);
  }

  lemma KahnStart(g: Graph, inDegree: Degrees, queue: seq<string>)
    requires inDegree.Keys == g.Keys && Distinct(queue)
    requires forall n :: n in g ==> inDegree[n] == |g[n]|
    requires forall n :: n in queue <==> n in g && inDegree[n] == 0
    ensures KahnInv(g, inDegree, queue, [], [])
  {
    forall n | n in g ensures Open(g[n], ToSet([])) == |g[n]| {
      assert ToSet([]) == {};
      OpenNothingDone(g[n]);
    }
  }

  ghost function Positive(inDegree: Degrees): set<string> {
    set n | n in inDegree && inDegree[n] > 0
  }

  lemma DecrementShrinks(inDegree: Degrees, queue: seq<string>, n: string)
    requires n in inDegree
    ensures |Enqueue(queue, Lower(inDegree, n), n)| + |Positive(Lower(inDegree, n))| <= |queue| + |Positive(inDegree)|
  {
    var lowered := Lower(inDegree, n);
    if lowered[n] == 0 {
      assert n in Positive(inDegree);
      assert Positive(lowered) == Positive(inDegree) - {n};
    } else {
      assert Positive(lowered) <= Positive(inDegree);
      CardinalityMonotone(Positive(lowered), Positive(inDegree));
    }
  }

  lemma CardinalityMonotone<T>(a: set<T>, b: set<T>)
    requires a <= b
    ensures |a| <= |b|
    ensures |a| == |b| ==> a == b
  {
    assert b == a + (b - a) && a !! (b - a);
  }

  lemma MirrorsGraph(components: seq<Component>, dependents: Dependents)
    requires forall n, d :: Times(dependents, n, d) == Entries(components, n, d)
    ensures forall n, d :: n in Lookup(dependents, d) ==> IsName(components, n)
    ensures UniqueNames(components) ==> Mirrors(GraphOf(components), dependents)
  {
    forall n, d | n in Lookup(dependents, d) ensures IsName(components, n) {
      assert Times(dependents, n, d) > 0;
      if !IsName(components, n) {
        CountsAbsent(components, n);
      }
    }
    GraphOfKeys(components);
    if UniqueNames(components) {
      var g := GraphOf(components);
      GraphOfUnique(components);
      forall n, d | n in g ensures multiset(Lookup(dependents, d))[n] == multiset(g[n])[d] {
        var c :| c in components && c.name == n;
        CountsUnique(components, c);
      }
    }
  }

  /** Duplicate-free lists with the same elements hold them equally often. */
  lemma {:induction false} DistinctPermutation(a: seq<Component>, b: seq<Component>)
    requires UniqueNames(a) && UniqueNames(b)
    requires forall c :: c in a <==> c in b
    ensures multiset(a) == multiset(b)
  {
    forall c ensures multiset(a)[c] == multiset(b)[c] {
      DistinctCount(a, c);
      DistinctCount(b, c);
    }
  }

  lemma {:induction false} DistinctCount(a: seq<Component>, c: Component)
    requires UniqueNames(a)
    ensures multiset(a)[c] == if c in a then 1 else 0
  {
    if a != [] {
      var init, last := a[..|a| - 1], a[|a| - 1];
      assert a == init + [last];
      DistinctCount(init, c);
    }
  }

  lemma NamesBijection(components: seq<Component>, done: seq<string>)
    requires UniqueNames(components) && Distinct(done)
    requires forall n :: n in done ==> n in GraphOf(components)
    ensures |done| <= |components|
    ensures |done| == |components| <==> forall n :: n in GraphOf(components) ==> n in done
  {
    var keys := GraphOf(components).Keys;
    UniqueSize(components);
    DistinctSize(done);
    assert ToSet(done) <= keys;
    CardinalityMonotone(ToSet(done), keys);
    if forall n :: n in GraphOf(components) ==> n in done {
      assert ToSet(done) == keys;
    } else {
      var n :| n in GraphOf(components) && n !in done;
      assert n in keys && n !in ToSet(done);
    }
  }

  lemma {:induction false} UniqueSize(components: seq<Component>)
    requires UniqueNames(components)
    ensures |GraphOf(components).Keys| == |components|
  {
    if components != [] {
      var init, last := components[..|components| - 1], components[|components| - 1];
      UniqueSize(init);
      GraphOfKeys(init);
      assert last.name !in GraphOf(init);
      assert GraphOf(components).Keys == GraphOf(init).Keys + {last.name};
    }
  }

  lemma {:induction false} DistinctSize(s: seq<string>)
    requires Distinct(s)
    ensures |ToSet(s)| == |s|
  {
    if s != [] {
      var init, last := s[..|s| - 1], s[|s| - 1];
      DistinctSize(init);
      assert s == init + [last];
      assert ToSet(s) == ToSet(init) + {last};
    }
  }

  /** The list the queue loop built, read through the finishing order. */
  ghost predicate Follows(sorted: seq<Component>, byName: map<string, Component>, done: seq<string>) {
    && |sorted| == |done|
    && forall i :: 0 <= i < |done| ==> done[i] in byName && sorted[i] == byName[done[i]]
  }

  lemma SortedResult(components: seq<Component>, byName: map<string, Component>, inDegree: Degrees,
                     sorted: seq<Component>, done: seq<string>)
    requires UniqueNames(components) && DependenciesKnown(components) && Indexes(components, byName)
    requires Follows(sorted, byName, done)
    requires KahnInv(GraphOf(components), inDegree, [], done, [])
    ensures |sorted| == |components| <==> !HasCycle(GraphOf(components))
    ensures |sorted| == |components| ==> multiset(sorted) == multiset(components) && DependencyFirst(sorted)
  {
    var g := GraphOf(components);
    GraphOfKeys(components);
    NamesBijection(components, done);
    if |sorted| == |components| {
      AllDoneAcyclic(g, inDegree, done);
      SortedIsPermutation(components, byName, sorted, done);
      SortedIsOrdered(components, byName, sorted, done);
    } else {
      EdgesStayInside(components);
      LeftoverIsCyclic(g, inDegree, done);
    }
  }

  lemma EdgesStayInside(components: seq<Component>)
    requires UniqueNames(components) && DependenciesKnown(components)
    ensures forall a, b :: Edge(GraphOf(components), a, b) ==> b in GraphOf(components)
  {
    var g := GraphOf(components);
    GraphOfKeys(components);
    GraphOfUnique(components);
    forall a, b | Edge(g, a, b) ensures b in g {
      var c :| c in components && c.name == a;
      assert b in c.dependsOn;
    }
  }

  lemma SortedIsOrdered(components: seq<Component>, byName: map<string, Component>,
                        sorted: seq<Component>, done: seq<string>)
    requires UniqueNames(components) && Indexes(components, byName) && Follows(sorted, byName, done)
    requires DoneOrdered(GraphOf(components), done)
    ensures DependencyFirst(sorted)
  {
    GraphOfUnique(components);
    forall i, d | 0 <= i < |sorted| && d in sorted[i].dependsOn
      ensures exists j :: 0 <= j < i && sorted[j].name == d
    {
      assert Edge(GraphOf(components), done[i], d);
      var j :| 0 <= j < i && done[..i][j] == d;
      assert sorted[j].name == d;
    }
  }

  lemma SortedIsPermutation(components: seq<Component>, byName: map<string, Component>,
                            sorted: seq<Component>, done: seq<string>)
    requires UniqueNames(components) && Indexes(components, byName) && Follows(sorted, byName, done)
    requires Distinct(done) && forall c :: c in components ==> c.name in done
    ensures multiset(sorted) == multiset(components)
  {
    forall c | c in components ensures c in sorted {
      var i :| 0 <= i < |done| && done[i] == c.name;
      assert byName[c.name] == c;
      assert sorted[i] == c;
    }
    assert UniqueNames(sorted);
    DistinctPermutation(sorted, components);
  }

  /** names are strictly in component order, all among the first n. */
  ghost predicate Listing(components: seq<Component>, names: seq<string>, n: nat) {
    && (forall y :: y in names ==> IsName(components, y) && Index(components, y) < n)
    && forall i, j :: 0 <= i < j < |names| ==> Index(components, names[i]) < Index(components, names[j])
  }

  lemma ListingOneMore(components: seq<Component>, names: seq<string>, i: nat)
    requires UniqueNames(components) && i < |components| && Listing(components, names, i)
    ensures Listing(components, names + [components[i].name], i + 1) && Listing(components, names, i + 1)
  {
    IndexIs(components, i);
  }

  /** The names without dependencies, in component order. */
  method InitialQueue(components: seq<Component>, inDegree: Degrees) returns (queue: seq<string>)
    requires forall c :: c in components ==> c.name in inDegree
    ensures forall n :: n in queue <==> IsName(components, n) && inDegree[n] == 0
    ensures UniqueNames(components) ==> Distinct(queue) && Listing(components, queue, |components|)
  {
    queue := [];
    for i := 0 to |components|
      invariant forall n :: n in queue <==> exists k :: 0 <= k < i && components[k].name == n && inDegree[n] == 0
      invariant UniqueNames(components) ==> Distinct(queue) && Listing(components, queue, i)
    {
      if UniqueNames(components) {
        ListingOneMore(components, queue, i);
      }
      if inDegree[components[i].name] == 0 {
        queue := queue + [components[i].name];
      }
    }
    forall n ensures n in queue <==> IsName(components, n) && inDegree[n] == 0 {
      if IsName(components, n) && inDegree[n] == 0 {
        var c :| c in components && c.name == n;
        var k :| 0 <= k < |components| && components[k] == c;
      }
    }
  }

  /** In-degrees and queue once every waiting entry has been lowered. */
  function Released(waiting: seq<string>, inDegree: Degrees, queue: seq<string>): (Degrees, seq<string>)
    requires forall n :: n in waiting ==> n in inDegree
  {
    if waiting == [] then (inDegree, queue)
    else
      var lowered := Lower(inDegree, waiting[0]);
      Released(waiting[1..], lowered, Enqueue(queue, lowered, waiting[0]))
  }

  lemma {:induction false} ReleasedKeepsInv(g: Graph, done: seq<string>, waiting: seq<string>, inDegree: Degrees,
                                            queue: seq<string>)
    requires forall n :: n in waiting ==> n in inDegree
    requires KahnInv(g, inDegree, queue, done, waiting)
    ensures KahnInv(g, Released(waiting, inDegree, queue).0, Released(waiting, inDegree, queue).1, done, [])
  {
    if waiting != [] {
      var lowered := Lower(inDegree, waiting[0]);
      KahnDecrement(g, inDegree, queue, done, waiting);
      ReleasedKeepsInv(g, done, waiting[1..], lowered, Enqueue(queue, lowered, waiting[0]));
    }
  }

  lemma {:induction false} ReleasedShrinks(waiting: seq<string>, inDegree: Degrees, queue: seq<string>)
    requires forall n :: n in waiting ==> n in inDegree
    requires forall n :: n in queue ==> n in inDegree
    ensures var (inDegree', queue') := Released(waiting, inDegree, queue);
            && inDegree'.Keys == inDegree.Keys && (forall n :: n in queue' ==> n in inDegree)
            && |queue'| + |Positive(inDegree')| <= |queue| + |Positive(inDegree)|
  {
    if waiting != [] {
      var lowered := Lower(inDegree, waiting[0]);
      DecrementShrinks(inDegree, queue, waiting[0]);
      ReleasedShrinks(waiting[1..], lowered, Enqueue(queue, lowered, waiting[0]));
    }
  }

  lemma {:induction false} ReleasedKeepsOrder(components: seq<Component>, g: Graph, done: seq<string>,
                                              waiting: seq<string>, inDegree: Degrees, queue: seq<string>)
    requires forall n :: n in waiting ==> n in inDegree
    requires KahnInv(g, inDegree, queue, done, waiting) && forall x :: x in g ==> IsName(components, x)
    requires Queued(components, g, done, done + queue) && Waiting(components, g, done, done + queue, waiting)
    ensures Queued(components, g, done, done + Released(waiting, inDegree, queue).1)
  {
    if waiting != [] {
      var lowered := Lower(inDegree, waiting[0]);
      KahnDecrement(g, inDegree, queue, done, waiting);
      FifoDecrement(components, g, inDegree, queue, done, waiting);
      ReleasedKeepsOrder(components, g, done, waiting[1..], lowered, Enqueue(queue, lowered, waiting[0]));
    }
  }

  /** Lowers the in-degree of everything waiting for the node just finished. */
  method Release(waiting: seq<string>, before: Degrees, queued: seq<string>)
    returns (inDegree: Degrees, queue: seq<string>)
    requires forall n :: n in waiting ==> n in before
    ensures (inDegree, queue) == Released(waiting, before, queued)
  {
    inDegree, queue := before, queued;
    for j := 0 to |waiting|
      invariant inDegree.Keys == before.Keys
      invariant Released(waiting[j..], inDegree, queue) == Released(waiting, before, queued)
    {
      var dependent := waiting[j];
      assert waiting[j..][1..] == waiting[j + 1..];
      inDegree := inDegree[dependent := inDegree[dependent] - 1];
      if inDegree[dependent] == 0 {
        queue := queue + [dependent];
      }
    }
  }

  /** One turn of the queue loop. */
  lemma KahnRound(g: Graph, inDegree: Degrees, queue: seq<string>, done: seq<string>, dependents: Dependents)
    requires KahnInv(g, inDegree, queue, done, []) && queue != [] && Mirrors(g, dependents)
    requires forall n :: n in Lookup(dependents, queue[0]) ==> n in inDegree
    ensures var (inDegree', queue') := Released(Lookup(dependents, queue[0]), inDegree, queue[1..]);
            KahnInv(g, inDegree', queue', done + [queue[0]], [])
  {
    KahnDequeue(g, inDegree, queue, done, dependents);
    ReleasedKeepsInv(g, done + [queue[0]], Lookup(dependents, queue[0]), inDegree, queue[1..]);
  }

  /** It keeps the queue in order of arrival. */
  lemma RoundKeepsOrder(components: seq<Component>, inDegree: Degrees, queue: seq<string>, done: seq<string>,
                        dependents: Dependents)
    requires var g := GraphOf(components); KahnInv(g, inDegree, queue, done, []) && Mirrors(g, dependents)
    requires queue != [] && forall n :: n in Lookup(dependents, queue[0]) ==> n in inDegree
    requires OrderedBelow(components, Lookup(dependents, queue[0]), |components|)
    requires Queued(components, GraphOf(components), done, done + queue)
    ensures var done' := done + [queue[0]];
            Queued(components, GraphOf(components), done',
                   done' + Released(Lookup(dependents, queue[0]), inDegree, queue[1..]).1)
  {
    var g, waiting, done' := GraphOf(components), Lookup(dependents, queue[0]), done + [queue[0]];
    GraphOfKeys(components);
    KahnDequeue(g, inDegree, queue, done, dependents);
    WaitersDepend(g, dependents, queue[0]);
    FifoDequeue(components, g, inDegree, queue, done, waiting);
    ReleasedKeepsOrder(components, g, done', waiting, inDegree, queue[1..]);
  }

  lemma WaitersDepend(g: Graph, dependents: Dependents, d: string)
    requires Mirrors(g, dependents)
    ensures forall y :: y in Lookup(dependents, d) ==> y in g && d in g[y]
  {
    forall y | y in Lookup(dependents, d) ensures y in g && d in g[y] {
      assert multiset(Lookup(dependents, d))[y] > 0;
      assert multiset(g[y])[d] > 0;
    }
  }

  /**
   The order is first come, first served: what became ready with an earlier component stands earlier, and among what
   became ready with the same one, or had no dependency at all, the list's own order decides.
   */
  ghost predicate FirstCome(components: seq<Component>, sorted: seq<Component>) {
    exists names :: NamesOf(sorted, names) && Queued(components, GraphOf(components), names, names)
  }

  ghost predicate NamesOf(sorted: seq<Component>, names: seq<string>) {
    |names| == |sorted| && forall i :: 0 <= i < |sorted| ==> names[i] == sorted[i].name
  }

  lemma SortedFirstCome(components: seq<Component>, byName: map<string, Component>, sorted: seq<Component>,
                        done: seq<string>)
    requires Indexes(components, byName) && Follows(sorted, byName, done)
    requires Queued(components, GraphOf(components), done, done)
    ensures FirstCome(components, sorted)
  {
    assert NamesOf(sorted, done);
  }

  lemma StartInOrder(components: seq<Component>, queue: seq<string>)
    requires Listing(components, queue, |components|)
    ensures Queued(components, GraphOf(components), [], queue)
  {
    GraphOfKeys(components);
    forall i, j | 0 <= i < j < |queue| ensures Sooner(components, GraphOf(components), [], queue[i], queue[j]) {
      assert queue[i] in queue && queue[j] in queue;
      assert LastDone([], GraphOf(components)[queue[i]]) == LastDone([], GraphOf(components)[queue[j]]) == -1;
    }
  }

  lemma FollowsOne(sorted: seq<Component>, byName: map<string, Component>, done: seq<string>, name: string)
    requires Follows(sorted, byName, done) && name in byName
    ensures Follows(sorted + [byName[name]], byName, done + [name])
  {
  }

  /** Kahn's breadth-first sort on precomputed in-degrees. */
  method KahnSort(components: seq<Component>, byName: map<string, Component>, degrees: Degrees)
    returns (r: Result<seq<Component>, SortError>)
    requires DependenciesKnown(components) && Indexes(components, byName)
    requires degrees.Keys == byName.Keys
    requires forall n :: n in degrees ==> degrees[n] == Declared(components, n)
    ensures r.Err? ==> r.error == CycleDetected
    ensures r.Ok? ==> |r.value| == |components| && forall c :: c in r.value ==> c in components
    ensures UniqueNames(components) ==> (r.Ok? <==> !HasCycle(GraphOf(components)))
    ensures UniqueNames(components) && r.Ok? ==> multiset(r.value) == multiset(components) && DependencyFirst(r.value)
    ensures UniqueNames(components) && r.Ok? ==> FirstCome(components, r.value)
  {
    ghost var g, unique := GraphOf(components), UniqueNames(components);
    var dependents := BuildDependents(components);
    MirrorsGraph(components, dependents);
    var inDegree := degrees;
    var queue := InitialQueue(components, inDegree);
    if unique {
      DegreesOfGraph(components, degrees);
      KahnStart(g, inDegree, queue);
      StartInOrder(components, queue);
      assert [] + queue == queue;
    }
    var sorted: seq<Component> := [];
    ghost var done: seq<string> := [];
    while queue != []
      invariant inDegree.Keys == byName.Keys && forall n :: n in queue ==> n in byName
      invariant Follows(sorted, byName, done)
      invariant unique ==> KahnInv(g, inDegree, queue, done, []) && Queued(components, g, done, done + queue)
      decreases |queue| + |Positive(inDegree)|
    {
      var name := queue[0];
      var waiting := Lookup(dependents, name);
      if unique {
        KahnRound(g, inDegree, queue, done, dependents);
        RoundKeepsOrder(components, inDegree, queue, done, dependents);
      }
      FollowsOne(sorted, byName, done, name);
      ReleasedShrinks(waiting, inDegree, queue[1..]);
      queue := queue[1..];
      sorted := sorted + [byName[name]];
      done := done + [name];
      inDegree, queue := Release(waiting, inDegree, queue);
    }
    if unique {
      SortedResult(components, byName, inDegree, sorted, done);
      assert done + [] == done;
      SortedFirstCome(components, byName, sorted, done);
    }
    if |sorted| != |components| {
      return Err(CycleDetected);
    }
    return Ok(sorted);
  }

  lemma DegreesOfGraph(components: seq<Component>, degrees: Degrees)
    requires UniqueNames(components)
    requires forall n :: n in degrees <==> IsName(components, n)
    requires forall n :: n in degrees ==> degrees[n] == Declared(components, n)
    ensures degrees.Keys == GraphOf(components).Keys
    ensures forall n :: n in degrees ==> degrees[n] == |GraphOf(components)[n]|
  {
    GraphOfKeys(components);
    GraphOfUnique(components);
    forall n | n in degrees ensures degrees[n] == |GraphOf(components)[n]| {
      var c :| c in components && c.name == n;
      CountsUnique(components, c);
    }
  }

  // ---- the order is determined ----

  /** A finishing order: every name once, each after what it depends on. */
  ghost predicate Finishing(g: Graph, names: seq<string>) {
    Distinct(names) && (forall n :: n in names <==> n in g) && DoneOrdered(g, names)
  }

  /** What a name waited for is settled by the names before it. */
  lemma LastDoneBefore(g: Graph, names: seq<string>, k: nat, x: string)
    requires Finishing(g, names) && k <= |names| && x in g && forall d :: d in g[x] ==> d in names[..k]
    ensures LastDone(names, g[x]) == LastDone(names[..k], g[x])
  {
    var p := LastDone(names, g[x]);
    if p >= 0 {
      var i :| 0 <= i < k && names[..k][i] == names[p];
      assert names[i] == names[p];
    }
    assert forall q :: 0 <= q < k ==> names[..k][q] == names[q];
  }

  lemma SoonerBefore(components: seq<Component>, g: Graph, names: seq<string>, k: nat, j: nat, y: string)
    requires Finishing(g, names) && Queued(components, g, names, names) && k < j < |names| && names[j] == y
    requires forall d :: d in g[y] ==> d in names[..k]
    ensures Sooner(components, g, names[..k], names[k], y)
  {
    var x := names[k];
    assert x in names && y in names;
    forall d | d in g[x] ensures d in names[..k] {
      assert Edge(g, x, d);
    }
    LastDoneBefore(g, names, k, x);
    LastDoneBefore(g, names, k, y);
    assert Sooner(components, g, names, names[k], names[j]);
  }

  lemma SoonerOneWay(components: seq<Component>, g: Graph, done: seq<string>, x: string, y: string)
    ensures !(Sooner(components, g, done, x, y) && Sooner(components, g, done, y, x))
  {
  }

  /** Two such orders that agree so far agree on the next name. */
  lemma NextAgrees(components: seq<Component>, g: Graph, a: seq<string>, b: seq<string>, m: nat)
    requires Finishing(g, a) && Queued(components, g, a, a) && Finishing(g, b) && Queued(components, g, b, b)
    requires m < |a| && m < |b| && a[..m] == b[..m]
    ensures a[m] == b[m]
  {
    var x, y := a[m], b[m];
    if x != y {
      var j := LaterIn(g, b, a, m, y);
      var i := LaterIn(g, a, b, m, x);
      DependenciesBefore(g, a, m);
      DependenciesBefore(g, b, m);
      SoonerBefore(components, g, a, m, j, y);
      SoonerBefore(components, g, b, m, i, x);
      SoonerOneWay(components, g, a[..m], x, y);
    }
  }

  lemma DependenciesBefore(g: Graph, names: seq<string>, m: nat)
    requires Finishing(g, names) && m < |names|
    ensures names[m] in g && forall d :: d in g[names[m]] ==> d in names[..m]
  {
    assert names[m] in names;
    forall d | d in g[names[m]] ensures d in names[..m] {
      assert Edge(g, names[m], d);
    }
  }

  lemma {:induction false} SameOrder(components: seq<Component>, g: Graph, a: seq<string>, b: seq<string>, k: nat)
    requires Finishing(g, a) && Queued(components, g, a, a) && Finishing(g, b) && Queued(components, g, b, b)
    requires k <= |a| && k <= |b|
    ensures a[..k] == b[..k]
  {
    if k > 0 {
      SameOrder(components, g, a, b, k - 1);
      NextAgrees(components, g, a, b, k - 1);
      assert a[..k] == a[..k - 1] + [a[k - 1]] && b[..k] == b[..k - 1] + [b[k - 1]];
    }
  }

  /** A name that stands at m in one order stands later in another that agrees before m and holds another name there. */
  lemma LaterIn(g: Graph, b: seq<string>, a: seq<string>, m: nat, y: string) returns (j: nat)
    requires Finishing(g, a) && Finishing(g, b) && m < |a| && m < |b| && a[..m] == b[..m] && b[m] == y && a[m] != y
    ensures m < j < |a| && a[j] == y
  {
    assert y in b;
    j :| 0 <= j < |a| && a[j] == y;
    assert forall q :: 0 <= q < m ==> a[q] == a[..m][q] && b[q] == b[..m][q];
  }

  /** Components of distinct names have at most one dependency-first order that is first come, first served. */
  lemma OneOrder(components: seq<Component>, a: seq<Component>, b: seq<Component>)
    requires UniqueNames(components) && multiset(a) == multiset(components) == multiset(b)
    requires DependencyFirst(a) && FirstCome(components, a) && DependencyFirst(b) && FirstCome(components, b)
    ensures a == b
  {
    var g := GraphOf(components);
    var m :| NamesOf(a, m) && Queued(components, g, m, m);
    var n :| NamesOf(b, n) && Queued(components, g, n, n);
    NamesFinish(components, a, m);
    NamesFinish(components, b, n);
    assert |a| == |multiset(a)| == |b|;
    SameOrder(components, g, m, n, |m|);
    assert m[..|m|] == m && n[..|m|] == n;
    forall i | 0 <= i < |a| ensures a[i] == b[i] {
      assert a[i] in multiset(components) && b[i] in multiset(components);
      GraphNamesOne(components, a[i], b[i]);
    }
  }

  lemma GraphNamesOne(components: seq<Component>, x: Component, y: Component)
    requires UniqueNames(components) && x in components && y in components && x.name == y.name
    ensures x == y
  {
    var i :| 0 <= i < |components| && components[i] == x;
    var j :| 0 <= j < |components| && components[j] == y;
  }

  lemma NamesKeys(components: seq<Component>, sorted: seq<Component>, names: seq<string>, n: string)
    requires multiset(sorted) == multiset(components) && NamesOf(sorted, names)
    ensures n in names <==> n in GraphOf(components)
  {
    GraphOfKeys(components);
    if n in names {
      var i :| 0 <= i < |names| && names[i] == n;
      assert sorted[i] in multiset(sorted) && sorted[i] in multiset(components);
    }
    if n in GraphOf(components) {
      var c :| c in components && c.name == n;
      assert c in multiset(components) && c in multiset(sorted);
      var i :| 0 <= i < |sorted| && sorted[i] == c;
      assert names[i] == n;
    }
  }

  lemma NamesOrdered(components: seq<Component>, sorted: seq<Component>, names: seq<string>)
    requires UniqueNames(components) && multiset(sorted) == multiset(components) && DependencyFirst(sorted)
    requires NamesOf(sorted, names)
    ensures DoneOrdered(GraphOf(components), names)
  {
    var g := GraphOf(components);
    GraphOfUnique(components);
    forall i, d | 0 <= i < |names| && Edge(g, names[i], d) ensures d in names[..i] {
      assert sorted[i] in multiset(sorted) && sorted[i] in multiset(components);
      var j :| 0 <= j < i && sorted[j].name == d;
      assert names[..i][j] == d;
    }
  }

  lemma QueuedDistinct(components: seq<Component>, g: Graph, names: seq<string>)
    requires Queued(components, g, names, names)
    ensures Distinct(names)
  {
    forall i, j | 0 <= i < j < |names| ensures names[i] != names[j] {
      assert Sooner(components, g, names, names[i], names[j]);
    }
  }

  lemma NamesFinish(components: seq<Component>, sorted: seq<Component>, names: seq<string>)
    requires UniqueNames(components) && multiset(sorted) == multiset(components) && DependencyFirst(sorted)
    requires NamesOf(sorted, names) && Queued(components, GraphOf(components), names, names)
    ensures Finishing(GraphOf(components), names)
  {
    QueuedDistinct(components, GraphOf(components), names);
    NamesOrdered(components, sorted, names);
    forall n ensures n in names <==> n in GraphOf(components) {
      NamesKeys(components, sorted, names, n);
    }
  }

  /** When topoSort succeeds on components with distinct names. */
  ghost predicate Sortable(components: seq<Component>) {
    DependenciesKnown(components) && !HasCycle(GraphOf(components))
  }

  /** Orders components dependency-first. */
  method TopoSort(components: seq<Component>) returns (r: Result<seq<Component>, SortError>)
    ensures !DependenciesKnown(components) <==> r.Err? && r.error.UnknownDependency?
    ensures r.Err? && r.error.UnknownDependency? ==> exists i, j :: FirstUnknown(components, r.error, i, j)
    ensures r.Ok? ==> |r.value| == |components| && forall c :: c in r.value ==> c in components
    ensures UniqueNames(components) ==> (r.Ok? <==> Sortable(components))
    ensures UniqueNames(components) && r.Ok? ==> multiset(r.value) == multiset(components) && DependencyFirst(r.value)
    ensures UniqueNames(components) && r.Ok? ==> FirstCome(components, r.value)
  {
    var built := BuildTopoGraph(components);
    if built.Err? {
      return Err(built.error);
    }
    r := KahnSort(components, built.value.0, built.value.1);
  }
}
