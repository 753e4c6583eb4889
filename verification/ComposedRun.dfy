/** Composed convergence: converge the components one by one in dependency order, then merge. */
module ComposedRun {
  import opened Wrappers
  import opened DependencyGraph
  import TopoSort

  type FileSet = map<string, string>

  /** What one component's convergence loop did; any outcome at any non-negative cost. */
  datatype Convergence = Convergence(files: Option<FileSet>, cost: real)

  /** The arguments one component's convergence loop was started with. */
  datatype Call = Call(component: Component, depInterfaces: map<string, string>, baseFiles: FileSet, spentBefore: real)

  datatype ComposeError = Unsortable(reason: TopoSort.SortError) | FallBack

  datatype Composed = Composed(files: FileSet, accumulated: FileSet)

  /** The dependency section of a component's prompt: declared dependencies with a recorded interface. */
  function PromptInterfaces(call: Call): map<string, string> {
    map d | d in call.component.dependsOn && d in call.depInterfaces :: call.depInterfaces[d]
  }

  /** Files of every list element, later elements replacing earlier ones. */
  function Overlay(sets: seq<FileSet>): FileSet {
    if sets == [] then map[] else Overlay(sets[..|sets| - 1]) + sets[|sets| - 1]
  }

  /** A path ends up with the content of the last set that has it. */
  lemma {:induction false} OverlayLastWins(sets: seq<FileSet>, path: string)
    ensures path in Overlay(sets) <==> exists i :: 0 <= i < |sets| && path in sets[i]
    ensures path in Overlay(sets) ==>
      exists i :: 0 <= i < |sets| && path in sets[i] && Overlay(sets)[path] == sets[i][path]
                  && forall j :: i < j < |sets| ==> path !in sets[j]
  {
    if sets != [] {
      var n := |sets| - 1;
      var init := sets[..n];
      OverlayLastWins(init, path);
      if path in sets[n] {
        assert Overlay(sets)[path] == sets[n][path];
      } else if path in Overlay(init) {
        var i :| 0 <= i < |init| && path in init[i] && Overlay(init)[path] == init[i][path]
                 && forall j :: i < j < |init| ==> path !in init[j];
        assert path in sets[i] && Overlay(sets)[path] == sets[i][path];
        forall j | i < j < |sets| ensures path !in sets[j] {
          if j < n { assert init[j] == sets[j]; }
        }
      } else {
        forall i | 0 <= i < |sets| ensures path !in sets[i] {
          if i < n { assert init[i] == sets[i]; }
        }
      }
    }
  }

  lemma OverlayPrefix(sets: seq<FileSet>, i: nat)
    requires i < |sets|
    ensures Overlay(sets[..i + 1]) == Overlay(sets[..i]) + sets[i]
  {
    assert sets[..i + 1][..i] == sets[..i];
  }

  /** Merges in topological order, copying path by path. */
  method MergeComponentFiles(sorted: seq<Component>, componentFiles: map<string, FileSet>) returns (composed: FileSet)
    requires forall i :: 0 <= i < |sorted| ==> sorted[i].name in componentFiles
    ensures composed == Overlay(seq(|sorted|, i requires 0 <= i < |sorted| => componentFiles[sorted[i].name]))
  {
    ghost var sets := seq(|sorted|, i requires 0 <= i < |sorted| => componentFiles[sorted[i].name]);
    composed := map[];
    for i := 0 to |sorted|
      invariant composed == Overlay(sets[..i])
    {
      var files := componentFiles[sorted[i].name];
      ghost var before := composed;
      var todo := files.Keys;
      while todo != {}
        invariant todo <= files.Keys
        invariant composed == before + map p | p in files && p !in todo :: files[p]
        decreases todo
      {
        var path :| path in todo;
        composed := composed[path := files[path]];
        todo := todo - {path};
      }
      assert composed == before + files;
      OverlayPrefix(sets, i);
    }
    assert sets[..|sorted|] == sets;
  }

  function TotalCost(script: nat -> Convergence, n: nat): real {
    if n == 0 then 0.0 else TotalCost(script, n - 1) + script(n - 1).cost
  }

  /** The cost of n loops is that of the first m and of those after them; of one loop, its own. */
  lemma {:induction false} CostsAddUp(script: nat -> Convergence, m: nat, n: nat)
    requires m <= n
    ensures TotalCost(script, n) == TotalCost(script, m) + TotalCost((i: nat) => script(m + i), n - m)
    ensures TotalCost(script, 1) == script(0).cost
  {
    if m < n {
      CostsAddUp(script, m, n - 1);
    }
  }

  /** The interface the component named d declares. */
  ghost predicate Declares(components: seq<Component>, d: string, iface: string) {
    exists c :: c in components && c.name == d && c.iface == iface
  }

  /** Every declared dependency was converged before, and its own interface is in the prompt; no other one is. */
  ghost predicate CallInformed(components: seq<Component>, call: Call) {
    forall d ::
      && (d in PromptInterfaces(call) <==> d in call.component.dependsOn)
      && (d in PromptInterfaces(call) ==> Declares(components, d, PromptInterfaces(call)[d]))
  }

  /** The interfaces on record once the components in done have converged. */
  function Interfaces(done: seq<Component>): map<string, string> {
    if done == [] then map[]
    else Interfaces(done[..|done| - 1])[done[|done| - 1].name := done[|done| - 1].iface]
  }

  lemma {:induction false} InterfacesDeclared(components: seq<Component>, done: seq<Component>, d: string)
    requires forall i :: 0 <= i < |done| ==> done[i] in components
    ensures d in Interfaces(done) ==> Declares(components, d, Interfaces(done)[d])
    ensures (exists i :: 0 <= i < |done| && done[i].name == d) ==> d in Interfaces(done)
  {
    if done != [] {
      var init, last := done[..|done| - 1], done[|done| - 1];
      InterfacesDeclared(components, init, d);
      if last.name == d {
        assert Declares(components, d, last.iface);
      } else if i :| 0 <= i < |done| && done[i].name == d {
        assert init[i].name == d;
      }
    }
  }

  lemma InformedByOrder(components: seq<Component>, sorted: seq<Component>, i: nat, call: Call)
    requires DependencyFirst(sorted) && i < |sorted| && call.component == sorted[i]
    requires call.depInterfaces == Interfaces(sorted[..i])
    requires forall k :: 0 <= k < |sorted| ==> sorted[k] in components
    ensures CallInformed(components, call)
  {
    forall d | d in call.component.dependsOn
      ensures d in PromptInterfaces(call) && Declares(components, d, PromptInterfaces(call)[d])
    {
      var j :| 0 <= j < i && sorted[j].name == d;
      assert sorted[..i][j].name == d;
      InterfacesDeclared(components, sorted[..i], d);
    }
  }

  /** The files converged for the first n components, in order. */
  ghost function FilesSoFar(script: nat -> Convergence, n: nat): (sets: seq<FileSet>)
    requires forall k :: 0 <= k < n ==> script(k).files.Some?
    ensures |sets| == n && forall k :: 0 <= k < n ==> sets[k] == script(k).files.value
  {
    seq(n, k requires 0 <= k < n => script(k).files.value)
  }

  /** Each finished component's files are filed under its name. */
  ghost predicate Kept(done: seq<Component>, componentFiles: map<string, FileSet>, sets: seq<FileSet>) {
    && |done| == |sets|
    && forall k :: 0 <= k < |done| ==> done[k].name in componentFiles && componentFiles[done[k].name] == sets[k]
  }

  lemma KeptInOrder(sorted: seq<Component>, componentFiles: map<string, FileSet>, sets: seq<FileSet>)
    requires Kept(sorted, componentFiles, sets)
    ensures forall i :: 0 <= i < |sorted| ==> sorted[i].name in componentFiles
    ensures seq(|sorted|, i requires 0 <= i < |sorted| => componentFiles[sorted[i].name]) == sets
  {
  }

  lemma KeepOne(done: seq<Component>, comp: Component, componentFiles: map<string, FileSet>, sets: seq<FileSet>,
                files: FileSet)
    requires UniqueNames(done) ==> Kept(done, componentFiles, sets)
    ensures UniqueNames(done + [comp]) ==> Kept(done + [comp], componentFiles[comp.name := files], sets + [files])
  {
    var more := done + [comp];
    if UniqueNames(more) {
      forall i, j | 0 <= i < j < |done| ensures done[i].name != done[j].name {
        assert more[i] == done[i] && more[j] == done[j];
      }
      forall k | 0 <= k < |done| ensures done[k].name != comp.name {
        assert more[k] == done[k] && more[|done|] == comp;
      }
    }
  }

  /** The k-th loop started under budget, after exactly the first k costs, on the files of the first k components. */
  ghost predicate CallSound(components: seq<Component>, budget: real, script: nat -> Convergence, call: Call, k: nat) {
    && call.component in components
    && call.spentBefore == TotalCost(script, k) && !(budget > 0.0 && call.spentBefore >= budget)
    && (forall i :: 0 <= i < k ==> script(i).files.Some?) && call.baseFiles == Overlay(FilesSoFar(script, k))
  }

  /** The n-th started loop failed, or the next was not started for lack of budget. */
  ghost predicate HaltedAt(budget: real, script: nat -> Convergence, n: nat, total: nat) {
    (n > 0 && script(n - 1).files.None?) || (n < total && budget > 0.0 && TotalCost(script, n) >= budget)
  }

  ghost predicate InOrder(calls: seq<Call>, sorted: seq<Component>) {
    |calls| <= |sorted| && forall k :: 0 <= k < |calls| ==> calls[k].component == sorted[k]
  }

  /** Every call is for the next component of the one dependency-first order that is first come, first served. */
  ghost predicate FollowsOrder(calls: seq<Call>, components: seq<Component>) {
    exists sorted ::
      && multiset(sorted) == multiset(components) && DependencyFirst(sorted) && TopoSort.FirstCome(components, sorted)
      && InOrder(calls, sorted)
  }

  ghost predicate Filed(done: seq<Component>, componentFiles: map<string, FileSet>) {
    forall k :: 0 <= k < |done| ==> done[k].name in componentFiles
  }

  lemma FiledOne(done: seq<Component>, comp: Component, componentFiles: map<string, FileSet>, files: FileSet)
    requires Filed(done, componentFiles)
    ensures Filed(done + [comp], componentFiles[comp.name := files])
  {
  }

  /** After the components in done: files, records and costs are exactly those of the first |done| convergences. */
  ghost predicate Progress(done: seq<Component>, script: nat -> Convergence,
                           accumulated: FileSet, componentFiles: map<string, FileSet>,
                           depInterfaces: map<string, string>)
  {
    && (forall k :: 0 <= k < |done| ==> script(k).files.Some?)
    && Filed(done, componentFiles)
    && (UniqueNames(done) ==> Kept(done, componentFiles, FilesSoFar(script, |done|)))
    && accumulated == Overlay(FilesSoFar(script, |done|))
    && depInterfaces == Interfaces(done)
  }

  lemma ProgressStep(sorted: seq<Component>, i: nat, script: nat -> Convergence,
                     accumulated: FileSet, componentFiles: map<string, FileSet>, depInterfaces: map<string, string>)
    requires i < |sorted| && script(i).files.Some?
    requires Progress(sorted[..i], script, accumulated, componentFiles, depInterfaces)
    ensures var comp, files := sorted[i], script(i).files.value;
            Progress(sorted[..i + 1], script, accumulated + files,
                     componentFiles[comp.name := files], depInterfaces[comp.name := comp.iface])
  {
    assert sorted[..i + 1] == sorted[..i] + [sorted[i]];
    ProgressOne(sorted[..i], sorted[i], script, accumulated, componentFiles, depInterfaces);
  }

  lemma ProgressOne(done: seq<Component>, comp: Component, script: nat -> Convergence,
                    accumulated: FileSet, componentFiles: map<string, FileSet>, depInterfaces: map<string, string>)
    requires script(|done|).files.Some?
    requires Progress(done, script, accumulated, componentFiles, depInterfaces)
    ensures var files := script(|done|).files.value;
            Progress(done + [comp], script, accumulated + files,
                     componentFiles[comp.name := files], depInterfaces[comp.name := comp.iface])
  {
    var files, n := script(|done|).files.value, |done|;
    InterfacesOne(done, comp);
    OverlayOne(script, n);
    FiledOne(done, comp, componentFiles, files);
    KeepOne(done, comp, componentFiles, FilesSoFar(script, n), files);
    assert |done + [comp]| == n + 1;
  }

  lemma InterfacesOne(done: seq<Component>, comp: Component)
    ensures Interfaces(done + [comp]) == Interfaces(done)[comp.name := comp.iface]
  {
    assert (done + [comp])[..|done|] == done;
  }

  lemma OverlayOne(script: nat -> Convergence, n: nat)
    requires forall k :: 0 <= k <= n ==> script(k).files.Some?
    ensures FilesSoFar(script, n + 1) == FilesSoFar(script, n) + [script(n).files.value]
    ensures Overlay(FilesSoFar(script, n + 1)) == Overlay(FilesSoFar(script, n)) + script(n).files.value
  {
    var sets := FilesSoFar(script, n);
    assert FilesSoFar(script, n + 1) == sets + [script(n).files.value];
    assert (sets + [script(n).files.value])[..n] == sets;
  }

  ghost predicate CallsSound(components: seq<Component>, budget: real, script: nat -> Convergence, calls: seq<Call>) {
    forall k :: 0 <= k < |calls| ==> CallSound(components, budget, script, calls[k], k)
  }

  ghost predicate CallsInformed(components: seq<Component>, calls: seq<Call>) {
    forall call :: call in calls ==> CallInformed(components, call)
  }

  lemma OneMoreSound(components: seq<Component>, budget: real, script: nat -> Convergence, calls: seq<Call>, call: Call)
    requires CallsSound(components, budget, script, calls) && CallSound(components, budget, script, call, |calls|)
    ensures CallsSound(components, budget, script, calls + [call])
  {
  }

  /** The calls of a loop in its own order; in a dependency-first order each knows its dependencies. */
  ghost predicate Called(components: seq<Component>, sorted: seq<Component>, budget: real, script: nat -> Convergence,
                         calls: seq<Call>)
  {
    && CallsSound(components, budget, script, calls) && InOrder(calls, sorted)
    && (DependencyFirst(sorted) ==> CallsInformed(components, calls))
  }

  lemma OneMoreInOrder(sorted: seq<Component>, calls: seq<Call>, call: Call)
    requires InOrder(calls, sorted) && |calls| < |sorted| && call.component == sorted[|calls|]
    ensures InOrder(calls + [call], sorted)
  {
  }

  lemma OneMoreInformed(components: seq<Component>, sorted: seq<Component>, calls: seq<Call>, call: Call)
    requires |calls| < |sorted| && call.component == sorted[|calls|]
    requires call.depInterfaces == Interfaces(sorted[..|calls|])
    requires forall k :: 0 <= k < |sorted| ==> sorted[k] in components
    requires DependencyFirst(sorted) ==> CallsInformed(components, calls)
    ensures DependencyFirst(sorted) ==> CallsInformed(components, calls + [call])
  {
    if DependencyFirst(sorted) {
      InformedByOrder(components, sorted, |calls|, call);
    }
  }

  /** Before the next component the records match, so its call is sound. */
  lemma CallIsSound(components: seq<Component>, sorted: seq<Component>, budget: real, script: nat -> Convergence,
                    calls: seq<Call>, call: Call, componentFiles: map<string, FileSet>)
    requires |calls| < |sorted| && call.component == sorted[|calls|]
    requires forall k :: 0 <= k < |sorted| ==> sorted[k] in components
    requires Progress(sorted[..|calls|], script, call.baseFiles, componentFiles, call.depInterfaces)
    requires call.spentBefore == TotalCost(script, |calls|) && !(budget > 0.0 && call.spentBefore >= budget)
    requires Called(components, sorted, budget, script, calls)
    ensures Called(components, sorted, budget, script, calls + [call])
  {
    assert |sorted[..|calls|]| == |calls|;
    OneMoreSound(components, budget, script, calls, call);
    OneMoreInOrder(sorted, calls, call);
    OneMoreInformed(components, sorted, calls, call);
  }

  lemma ProgressDone(sorted: seq<Component>, script: nat -> Convergence,
                     accumulated: FileSet, componentFiles: map<string, FileSet>, depInterfaces: map<string, string>)
    requires Progress(sorted[..|sorted|], script, accumulated, componentFiles, depInterfaces)
    ensures Progress(sorted, script, accumulated, componentFiles, depInterfaces)
  {
    assert sorted[..|sorted|] == sorted;
  }

  /** Starts the loop of the next component, whose outcome is script's. */
  method ConvergeComponent(components: seq<Component>, ghost sorted: seq<Component>, ghost budget: real,
                           script: nat -> Convergence, before: seq<Call>, call: Call, ghost filed: map<string, FileSet>)
    returns (calls: seq<Call>, cost: real, files: Option<FileSet>)
    requires |before| < |sorted| && call.component == sorted[|before|]
    requires forall k :: 0 <= k < |sorted| ==> sorted[k] in components
    requires Progress(sorted[..|before|], script, call.baseFiles, filed, call.depInterfaces)
    requires call.spentBefore == TotalCost(script, |before|) && !(budget > 0.0 && call.spentBefore >= budget)
    requires Called(components, sorted, budget, script, before)
    ensures |calls| == |before| + 1 && cost == TotalCost(script, |calls|)
    ensures Called(components, sorted, budget, script, calls)
    ensures files == script(|before|).files
  {
    CallIsSound(components, sorted, budget, script, before, call, filed);
    var outcome := script(|before|);
    return before + [call], call.spentBefore + outcome.cost, outcome.files;
  }

  /** The component loop proper, over an already sorted list. */
  method ConvergeInOrder(components: seq<Component>, sorted: seq<Component>, budget: real, script: nat -> Convergence)
    returns (ok: bool, accumulated: FileSet, componentFiles: map<string, FileSet>, calls: seq<Call>, cost: real)
    requires forall i :: 0 <= i < |sorted| ==> sorted[i] in components
    ensures cost == TotalCost(script, |calls|)
    ensures Called(components, sorted, budget, script, calls)
    ensures !ok ==> HaltedAt(budget, script, |calls|, |sorted|)
    ensures ok ==> |calls| == |sorted| && forall k :: 0 <= k < |calls| ==> script(k).files.Some?
    ensures ok ==> forall k :: 0 <= k < |sorted| ==> sorted[k].name in componentFiles
    ensures ok && UniqueNames(sorted) ==> Kept(sorted, componentFiles, FilesSoFar(script, |calls|))
    ensures ok ==> accumulated == Overlay(FilesSoFar(script, |calls|))
  {
    calls, cost, accumulated, componentFiles := [], 0.0, map[], map[];
    var depInterfaces: map<string, string> := map[];
    for i := 0 to |sorted|
      invariant |calls| == i && cost == TotalCost(script, i)
      invariant Progress(sorted[..i], script, accumulated, componentFiles, depInterfaces)
      invariant Called(components, sorted, budget, script, calls)
    {
      if budget > 0.0 && cost >= budget {
        return false, accumulated, componentFiles, calls, cost;
      }
      var comp := sorted[i];
      var call := Call(comp, depInterfaces, accumulated, cost);
      var files;
      calls, cost, files := ConvergeComponent(components, sorted, budget, script, calls, call, componentFiles);
      if files.None? {
        return false, accumulated, componentFiles, calls, cost;
      }
      ProgressStep(sorted, i, script, accumulated, componentFiles, depInterfaces);
      componentFiles := componentFiles[comp.name := files.value];
      accumulated := accumulated + files.value;
      depInterfaces := depInterfaces[comp.name := comp.iface];
    }
    ProgressDone(sorted, script, accumulated, componentFiles, depInterfaces);
    ok := true;
  }

  /**
   Composed convergence. script(k) is what the k-th started component loop does;
   budget 0 or less means unlimited.
   */
  method Compose(components: seq<Component>, budget: real, script: nat -> Convergence)
    returns (r: Result<Composed, ComposeError>, calls: seq<Call>, cost: real)
    ensures !DependenciesKnown(components) ==> r.Err? && r.error.Unsortable?
    ensures UniqueNames(components) ==> (r.Err? && r.error.Unsortable? <==> !TopoSort.Sortable(components))
    ensures cost == TotalCost(script, |calls|)
    ensures r.Err? && r.error.Unsortable? ==> calls == []
    ensures r.Err? && r.error == FallBack ==> HaltedAt(budget, script, |calls|, |components|)
    ensures CallsSound(components, budget, script, calls)
    ensures UniqueNames(components) ==> CallsInformed(components, calls)
    ensures UniqueNames(components) ==> calls == [] || FollowsOrder(calls, components)
    ensures r.Ok? ==> |calls| == |components| && forall k :: 0 <= k < |calls| ==> script(k).files.Some?
    ensures r.Ok? ==> r.value.accumulated == Overlay(FilesSoFar(script, |calls|))
    ensures r.Ok? && UniqueNames(components) ==> r.value.files == r.value.accumulated
  {
    calls, cost := [], 0.0;
    var ordered := TopoSort.TopoSort(components);
    if ordered.Err? {
      return Err(Unsortable(ordered.error)), calls, cost;
    }
    var sorted := ordered.value;
    if UniqueNames(components) {
      PermutationFacts(components, sorted);
    }
    var ok, accumulated, componentFiles;
    ok, accumulated, componentFiles, calls, cost := ConvergeInOrder(components, sorted, budget, script);
    if !ok {
      return Err(FallBack), calls, cost;
    }
    var composed := MergeComponentFiles(sorted, componentFiles);
    if UniqueNames(sorted) {
      KeptInOrder(sorted, componentFiles, FilesSoFar(script, |sorted|));
    }
    return Ok(Composed(composed, accumulated)), calls, cost;
  }

  lemma PermutationFacts(components: seq<Component>, sorted: seq<Component>)
    requires UniqueNames(components) && multiset(sorted) == multiset(components)
    ensures |sorted| == |components| && UniqueNames(sorted)
    ensures forall c :: c in sorted <==> c in components
  {
    assert |sorted| == |multiset(sorted)| && |components| == |multiset(components)|;
    forall c ensures c in sorted <==> c in components {
      assert c in multiset(sorted) <==> c in sorted;
      assert c in multiset(components) <==> c in components;
    }
    forall i, j | 0 <= i < j < |sorted| ensures sorted[i].name != sorted[j].name {
      if sorted[i].name == sorted[j].name {
        SameName(components, sorted[i], sorted[j]);
        var rest := sorted[..j] + sorted[j + 1..];
        assert sorted == sorted[..j] + [sorted[j]] + sorted[j + 1..];
        assert rest[i] == sorted[i];
        assert multiset(sorted) == multiset(rest) + multiset{sorted[j]};
        assert multiset(sorted)[sorted[i]] >= 2;
        TopoSort.DistinctCount(components, sorted[i]);
      }
    }
  }

  lemma SameName(components: seq<Component>, a: Component, b: Component)
    requires UniqueNames(components) && a in components && b in components && a.name == b.name
    ensures a == b
  {
    var i :| 0 <= i < |components| && components[i] == a;
    var j :| 0 <= j < |components| && components[j] == b;
  }
}
