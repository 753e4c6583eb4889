/**
 Gene component validation: name normalisation and the grey/black depth-first cycle check,
 and how its verdict relates to the topological sort's.
 */
module GeneValidation {
  import opened Wrappers
  import opened GoStrings
  import opened DependencyGraph
  import TopoSort

  // ---- names ----

  /** unicode.ToLower on the ASCII letters. */
  function LowerChar(c: char): char {
    if 'A' <= c <= 'Z' then c - 'A' + 'a' else c
  }

  function ToLower(s: string): string {
    seq(|s|, i requires 0 <= i < |s| => LowerChar(s[i]))
  }

  /** Length of the leading run of non-space characters. */
  function WordLength(s: string): (k: nat)
    ensures k <= |s|
    ensures forall i :: 0 <= i < k ==> !IsSpace(s[i])
    ensures k < |s| ==> IsSpace(s[k])
  {
    if s == [] || IsSpace(s[0]) then 0 else 1 + WordLength(s[1..])
  }

  /** strings.Fields: the maximal space-free runs. */
  function Fields(s: string): seq<string>
    decreases |s|
  {
    if s == [] then []
    else if IsSpace(s[0]) then Fields(s[1..])
    else [s[..WordLength(s)]] + Fields(s[WordLength(s)..])
  }

  function NormalizeName(s: string): string {
    Join(Fields(ToLower(s)), ' ')
  }

  predicate IsWord(w: string) {
    w != [] && forall c :: c in w ==> !IsSpace(c) && LowerChar(c) == c
  }

  lemma {:induction false} FieldsAreWords(s: string)
    requires forall c :: c in s ==> LowerChar(c) == c
    ensures forall w :: w in Fields(s) ==> IsWord(w)
    decreases |s|
  {
    if s != [] {
      if IsSpace(s[0]) {
        FieldsAreWords(s[1..]);
      } else {
        FieldsAreWords(s[WordLength(s)..]);
      }
    }
  }

  lemma WordLengthOf(w: string, rest: string)
    requires IsWord(w) && (rest == [] || IsSpace(rest[0]))
    ensures WordLength(w + rest) == |w|
  {
    assert forall i :: 0 <= i < |w| ==> (w + rest)[i] == w[i] && w[i] in w;
    assert rest != [] ==> (w + rest)[|w|] == rest[0];
  }

  lemma {:induction false} FieldsOfJoin(words: seq<string>)
    requires forall w :: w in words ==> IsWord(w)
    ensures Fields(Join(words, ' ')) == words
    ensures forall c :: c in Join(words, ' ') ==> LowerChar(c) == c
  {
    if words != [] {
      var w := words[0];
      if |words| == 1 {
        WordLengthOf(w, []);
        assert w + [] == w && w[..|w|] == w;
      } else {
        var tail := Join(words[1..], ' ');
        FieldsOfJoin(words[1..]);
        var rest := [' '] + tail;
        assert Join(words, ' ') == w + rest;
        WordLengthOf(w, rest);
        assert (w + rest)[..|w|] == w && (w + rest)[|w|..] == rest;
        assert rest[1..] == tail;
      }
    }
  }

  /** Normalising twice changes nothing: a normalised name is its own normal form. */
  lemma NormalizeIdempotent(s: string)
    ensures NormalizeName(NormalizeName(s)) == NormalizeName(s)
  {
    var words := Fields(ToLower(s));
    FieldsAreWords(ToLower(s));
    FieldsOfJoin(words);
    var joined := Join(words, ' ');
    forall i | 0 <= i < |joined| ensures ToLower(joined)[i] == joined[i] {
      assert joined[i] in joined;
    }
    assert ToLower(joined) == joined;
  }

  /** Text between and around words: a gap before each of them, and one at the end. */
  function Spelled(gaps: seq<string>, words: seq<string>): string
    requires |gaps| == |words| + 1
  {
    if words == [] then gaps[0] else gaps[0] + (words[0] + Spelled(gaps[1..], words[1..]))
  }

  /** Gaps are spaces, and inner ones hold at least one. */
  ghost predicate Spacing(gaps: seq<string>) {
    && gaps != [] && (forall i :: 0 <= i < |gaps| ==> Blank(gaps[i]))
    && forall i :: 0 < i < |gaps| - 1 ==> gaps[i] != ""
  }

  /** No spaces, and not empty. */
  predicate Solid(w: string) {
    w != "" && forall c :: c in w ==> !IsSpace(c)
  }

  function LowerAll(words: seq<string>): seq<string> {
    seq(|words|, i requires 0 <= i < |words| => ToLower(words[i]))
  }

  lemma LowerConcat(a: string, b: string)
    ensures ToLower(a + b) == ToLower(a) + ToLower(b)
  {
  }

  lemma LowerKeepsSpaces(s: string)
    ensures |ToLower(s)| == |s|
    ensures Blank(s) <==> Blank(ToLower(s))
    ensures Solid(s) <==> Solid(ToLower(s))
  {
    var t := ToLower(s);
    assert forall i :: 0 <= i < |s| ==> (IsSpace(s[i]) <==> IsSpace(t[i]));
    assert forall i :: 0 <= i < |s| ==> s[i] in s && t[i] in t;
  }

  lemma {:induction false} FieldsSkip(gap: string, rest: string)
    requires Blank(gap)
    ensures Fields(gap + rest) == Fields(rest)
  {
    if gap == "" {
      assert gap + rest == rest;
    } else {
      assert gap[0] in gap && (gap + rest)[1..] == gap[1..] + rest;
      FieldsSkip(gap[1..], rest);
    }
  }

  lemma FieldsTake(w: string, rest: string)
    requires Solid(w) && (rest == "" || IsSpace(rest[0]))
    ensures Fields(w + rest) == [w] + Fields(rest)
  {
    var s := w + rest;
    assert s[0] == w[0] && w[0] in w;
    assert forall i :: 0 <= i < |w| ==> s[i] == w[i] && w[i] in w;
    assert rest != "" ==> s[|w|] == rest[0];
    assert WordLength(s) == |w|;
    assert s[..|w|] == w && s[|w|..] == rest;
  }

  lemma {:induction false} FieldsOfSpelled(gaps: seq<string>, words: seq<string>)
    requires |gaps| == |words| + 1 && Spacing(gaps) && forall w :: w in words ==> Solid(w)
    ensures Fields(Spelled(gaps, words)) == words
    decreases |words|
  {
    if words == [] {
      FieldsSkip(gaps[0], "");
      assert gaps[0] + "" == gaps[0];
    } else {
      var rest := Spelled(gaps[1..], words[1..]);
      assert words[0] in words && gaps[1..][0] == gaps[1];
      if |words| > 1 {
        assert gaps[1] != "" && gaps[1][0] in gaps[1] && rest[0] == gaps[1][0];
      } else {
        assert rest == gaps[1] && (rest != "" ==> rest[0] in gaps[1]);
      }
      FieldsSkip(gaps[0], words[0] + rest);
      FieldsTake(words[0], rest);
      FieldsOfSpelled(gaps[1..], words[1..]);
    }
  }

  lemma {:induction false} LowerSpelled(gaps: seq<string>, words: seq<string>)
    requires |gaps| == |words| + 1
    ensures ToLower(Spelled(gaps, words)) == Spelled(LowerAll(gaps), LowerAll(words))
    decreases |words|
  {
    if words != [] {
      LowerSpelled(gaps[1..], words[1..]);
      LowerConcat(gaps[0], words[0] + Spelled(gaps[1..], words[1..]));
      LowerConcat(words[0], Spelled(gaps[1..], words[1..]));
      assert LowerAll(gaps)[1..] == LowerAll(gaps[1..]) && LowerAll(words)[1..] == LowerAll(words[1..]);
    }
  }

  /** However its words are spaced and cased, a name is normalised to them in lower case with one space between. */
  lemma NormalizeSpelled(gaps: seq<string>, words: seq<string>)
    requires |gaps| == |words| + 1 && Spacing(gaps) && forall w :: w in words ==> Solid(w)
    ensures NormalizeName(Spelled(gaps, words)) == Join(LowerAll(words), ' ')
  {
    var g, ws := LowerAll(gaps), LowerAll(words);
    LowerSpelled(gaps, words);
    forall i | 0 <= i < |g| ensures Blank(g[i]) && |g[i]| == |gaps[i]| {
      LowerKeepsSpaces(gaps[i]);
    }
    forall w | w in ws ensures Solid(w) {
      var i :| 0 <= i < |ws| && ws[i] == w;
      assert words[i] in words;
      LowerKeepsSpaces(words[i]);
    }
    FieldsOfSpelled(g, ws);
  }

  function NormalizeAll(names: seq<string>): seq<string> {
    seq(|names|, i requires 0 <= i < |names| => NormalizeName(names[i]))
  }

  function NormalizeComponent(c: Component): Component {
    c.(name := NormalizeName(c.name), dependsOn := NormalizeAll(c.dependsOn))
  }

  /** The components as validation sees them. */
  function Normalized(components: seq<Component>): seq<Component> {
    seq(|components|, i requires 0 <= i < |components| => NormalizeComponent(components[i]))
  }

  predicate InNormalForm(components: seq<Component>) {
    forall c :: c in components ==> NormalizeName(c.name) == c.name
                                    && forall d :: d in c.dependsOn ==> NormalizeName(d) == d
  }

  // ---- depth-first search ----

  /** No cycle passes through a node of s. */
  ghost predicate CycleFree(g: Graph, s: set<string>) {
    forall w :: IsCycle(g, w) ==> w[0] !in s
  }

  ghost function Nodes(g: Graph): set<string> {
    g.Keys + set k, d | k in g.Keys && d in g[k] :: d
  }

  /** A finished node whose successors are all finished joins them without creating a cycle. */
  lemma FinishNode(g: Graph, black: set<string>, n: string)
    requires ClosedUnder(g, black) && CycleFree(g, black) && n !in black
    requires forall d :: Edge(g, n, d) ==> d in black
    ensures ClosedUnder(g, black + {n}) && CycleFree(g, black + {n})
  {
    forall w | IsCycle(g, w) ensures w[0] !in black + {n} {
      if w[0] == n {
        assert Edge(g, w[0], w[1]);
        var tail := w[1..];
        assert IsWalk(g, tail) by {
          forall i {:trigger tail[i]} | 0 <= i < |tail| - 1 ensures Edge(g, tail[i], tail[i + 1]) {
            assert Edge(g, w[i + 1], w[i + 2]);
          }
        }
        WalkStaysInside(g, black, tail, |tail| - 1);
        assert false;
      }
    }
  }

  /** What a reported path proves: a walk whose last node already occurred on it. */
  ghost predicate Lasso(g: Graph, path: seq<string>) {
    IsWalk(g, path) && exists k :: 0 <= k < |path| - 1 && path[k] == path[|path| - 1]
  }

  /** Grey and black marks of one cycle search; adj never changes. */
  class CycleSearch {
    const adj: Graph
    var visited: set<string>
    var inStack: set<string>

    constructor (adj: Graph)
      ensures this.adj == adj && visited == {} && inStack == {} && Valid()
    {
      this.adj, visited, inStack := adj, {}, {};
    }

    /** Black nodes lead only to black nodes and lie on no cycle; no node is both black and grey. */
    ghost predicate Valid()
      reads this
    {
      visited !! inStack && ClosedUnder(adj, visited) && CycleFree(adj, visited)
    }

    /** One depth-first step. path lists the grey nodes, oldest first. */
    method Visit(name: string, path: seq<string>) returns (cycle: Option<seq<string>>)
      requires Valid()
      requires IsWalk(adj, path + [name]) && inStack == (set x | x in path) && name in Nodes(adj)
      modifies this`visited, this`inStack
      ensures old(visited) <= visited
      ensures cycle.None? ==> Valid() && inStack == old(inStack) && name in visited
      ensures cycle.Some? ==> Lasso(adj, cycle.value)
      decreases Nodes(adj) - inStack
    {
      if name in inStack {
        var k :| 0 <= k < |path| && path[k] == name;
        assert (path + [name])[k] == (path + [name])[|path|];
        return Some(path + [name]);
      }
      if name in visited {
        return None;
      }
      inStack := inStack + {name};
      var newPath := path + [name];
      var deps := if name in adj then adj[name] else [];
      for i := 0 to |deps|
        invariant Valid() && inStack == old(inStack) + {name} && old(visited) <= visited
        invariant forall d :: d in deps[..i] ==> d in visited
      {
        AppendToWalk(adj, newPath, deps[i]);
        cycle := Visit(deps[i], newPath);
        if cycle.Some? {
          return cycle;
        }
      }
      assert deps[..|deps|] == deps;
      FinishNode(adj, visited, name);
      inStack := inStack - {name};
      visited := visited + {name};
      return None;
    }

    /** Searches from every name, in whatever order the map yields them. */
    method Search() returns (cycle: Option<seq<string>>)
      requires Valid() && visited == {} && inStack == {}
      modifies this`visited, this`inStack
      ensures cycle.Some? <==> HasCycle(adj)
      ensures cycle.Some? ==> Lasso(adj, cycle.value)
    {
      var todo := adj.Keys;
      while todo != {}
        invariant Valid() && inStack == {}
        invariant todo <= adj.Keys && forall n :: n in adj && n !in todo ==> n in visited
        decreases todo
      {
        var name :| name in todo;
        assert IsWalk(adj, [] + [name]);
        cycle := Visit(name, []);
        if cycle.Some? {
          LassoHasCycle(adj, cycle.value);
          return;
        }
        todo := todo - {name};
      }
      AllFinished(adj, visited);
      return None;
    }
  }

  lemma AllFinished(g: Graph, black: set<string>)
    requires CycleFree(g, black) && g.Keys <= black
    ensures !HasCycle(g)
  {
  }

  lemma LassoHasCycle(g: Graph, path: seq<string>)
    requires Lasso(g, path)
    ensures HasCycle(g)
  {
    var k :| 0 <= k < |path| - 1 && path[k] == path[|path| - 1];
    CloseCycle(g, path, k);
  }

  // ---- validation ----

  datatype GeneError =
    | EmptyName
    | DuplicateName(component: string)
    | MissingDependency(component: string, dependency: string)
    | DependencyCycle(path: seq<string>)

  ghost predicate NamesUsable(components: seq<Component>) {
    && UniqueNames(Normalized(components))
    && forall c :: c in components ==> NormalizeName(c.name) != ""
  }

  /** Exactly the component lists validation accepts. */
  ghost predicate ValidGene(components: seq<Component>) {
    && NamesUsable(components)
    && DependenciesKnown(Normalized(components))
    && !HasCycle(GraphOf(Normalized(components)))
  }

  /** Adjacency over normalised names. */
  method BuildAdjacency(components: seq<Component>) returns (adj: Graph)
    ensures adj == GraphOf(Normalized(components))
  {
    adj := map[];
    for i := 0 to |components|
      invariant adj == GraphOf(Normalized(components)[..i])
    {
      var c := components[i];
      var normDeps := NormalizeAll(c.dependsOn);
      assert Normalized(components)[..i + 1][..i] == Normalized(components)[..i];
      adj := adj[NormalizeName(c.name) := normDeps];
    }
    assert Normalized(components)[..|components|] == Normalized(components);
  }

  /** The first i names are nonempty, distinct and exactly the set collected. */
  ghost predicate Surveyed(norm: seq<Component>, i: nat, names: set<string>)
    requires i <= |norm|
  {
    && (forall k :: 0 <= k < i ==> norm[k].name in names && norm[k].name != "")
    && (forall n :: n in names ==> exists k :: 0 <= k < i && norm[k].name == n)
    && UniqueNames(norm[..i])
  }

  lemma SurveyNext(norm: seq<Component>, i: nat, names: set<string>)
    requires i < |norm| && Surveyed(norm, i, names)
    ensures norm[i].name !in names && norm[i].name != "" ==> Surveyed(norm, i + 1, names + {norm[i].name})
    ensures norm[i].name in names ==> !UniqueNames(norm)
    ensures BadName(norm, i) <==> norm[i].name == "" || norm[i].name in names
  {
    if norm[i].name in names {
      var k :| 0 <= k < i && norm[k].name == norm[i].name;
    } else {
      assert norm[..i + 1] == norm[..i] + [norm[i]];
    }
  }

  lemma SurveyDone(components: seq<Component>, names: set<string>)
    requires Surveyed(Normalized(components), |components|, names)
    ensures NamesUsable(components)
    ensures forall n :: n in names <==> IsName(Normalized(components), n)
  {
    var norm := Normalized(components);
    assert norm[..|norm|] == norm;
    forall c | c in components ensures NormalizeName(c.name) != "" {
      var k :| 0 <= k < |components| && components[k] == c;
      assert norm[k].name != "";
    }
    forall n | n in names ensures IsName(norm, n) {
      var k :| 0 <= k < |norm| && norm[k].name == n;
      assert norm[k] in norm;
    }
  }

  /** The name of component i is empty, or was taken before. */
  ghost predicate BadName(norm: seq<Component>, i: nat)
    requires i < |norm|
  {
    norm[i].name == "" || exists k :: 0 <= k < i && norm[k].name == norm[i].name
  }

  ghost predicate NoneBad(norm: seq<Component>, n: nat)
    requires n <= |norm|
  {
    forall k :: 0 <= k < n ==> !BadName(norm, k)
  }

  /** err tells of component i, the first with a bad name. */
  ghost predicate FirstBadName(components: seq<Component>, err: GeneError, i: nat) {
    var norm := Normalized(components);
    && i < |components| && BadName(norm, i) && NoneBad(norm, i)
    && err == if norm[i].name == "" then EmptyName else DuplicateName(components[i].name)
  }

  lemma SurveyedNoneBad(norm: seq<Component>, i: nat, names: set<string>)
    requires i <= |norm| && Surveyed(norm, i, names)
    ensures NoneBad(norm, i)
  {
    forall k | 0 <= k < i ensures !BadName(norm, k) {
      assert norm[..i][k] == norm[k];
    }
  }

  /** The survey stops at the first bad name. */
  lemma SurveyStops(components: seq<Component>, i: nat, names: set<string>)
    requires i < |components| && Surveyed(Normalized(components), i, names)
    requires NormalizeName(components[i].name) == "" || NormalizeName(components[i].name) in names
    ensures FirstBadName(components, if NormalizeName(components[i].name) == "" then EmptyName
                                     else DuplicateName(components[i].name), i)
  {
    SurveyedNoneBad(Normalized(components), i, names);
    SurveyNext(Normalized(components), i, names);
  }

  /** err tells of dependency j of component i, the first that names nothing. */
  ghost predicate FirstMissing(components: seq<Component>, err: GeneError, i: nat, j: nat) {
    var norm := Normalized(components);
    && i < |components| && j < |norm[i].dependsOn| && !IsName(norm, norm[i].dependsOn[j])
    && (forall k, d :: 0 <= k < i && d in norm[k].dependsOn ==> IsName(norm, d))
    && (forall d :: 0 <= d < j ==> IsName(norm, norm[i].dependsOn[d]))
    && err == MissingDependency(components[i].name, components[i].dependsOn[j])
  }

  /** Rejects empty and duplicate names. */
  method CheckNames(components: seq<Component>) returns (names: set<string>, err: Option<GeneError>)
    ensures err.None? <==> NamesUsable(components)
    ensures err.None? ==> forall n :: n in names <==> IsName(Normalized(components), n)
    ensures err.Some? ==> exists i :: FirstBadName(components, err.value, i)
  {
    names := {};
    ghost var norm := Normalized(components);
    for i := 0 to |components|
      invariant Surveyed(norm, i, names)
    {
      var name := NormalizeName(components[i].name);
      assert norm[i].name == name && components[i] in components;
      SurveyNext(norm, i, names);
      if name == "" {
        SurveyStops(components, i, names);
        return names, Some(EmptyName);
      }
      if name in names {
        SurveyStops(components, i, names);
        return names, Some(DuplicateName(components[i].name));
      }
      names := names + {name};
    }
    SurveyDone(components, names);
    return names, None;
  }

  /** The first n dependencies of c are names. */
  ghost predicate Named(c: Component, n: nat, names: set<string>)
    requires n <= |c.dependsOn|
  {
    forall k :: 0 <= k < n ==> NormalizeName(c.dependsOn[k]) in names
  }

  lemma AllNamed(components: seq<Component>, names: set<string>)
    requires forall n :: n in names <==> IsName(Normalized(components), n)
    requires forall i :: 0 <= i < |components| ==> Named(components[i], |components[i].dependsOn|, names)
    ensures DependenciesKnown(Normalized(components))
  {
  }

  lemma FirstUnnamed(components: seq<Component>, names: set<string>, i: nat, j: nat)
    requires forall n :: n in names <==> IsName(Normalized(components), n)
    requires i < |components| && j < |components[i].dependsOn| && NormalizeName(components[i].dependsOn[j]) !in names
    requires forall k :: 0 <= k < i ==> Named(components[k], |components[k].dependsOn|, names)
    requires Named(components[i], j, names)
    ensures FirstMissing(components, MissingDependency(components[i].name, components[i].dependsOn[j]), i, j)
  {
    var norm := Normalized(components);
    forall k, d | 0 <= k < i && d in norm[k].dependsOn ensures IsName(norm, d) {
      var m :| 0 <= m < |norm[k].dependsOn| && norm[k].dependsOn[m] == d;
      assert NormalizeName(components[k].dependsOn[m]) in names;
    }
  }

  lemma OneUnnamed(components: seq<Component>, i: nat, j: nat)
    requires i < |components| && j < |components[i].dependsOn|
    requires !IsName(Normalized(components), NormalizeName(components[i].dependsOn[j]))
    ensures !DependenciesKnown(Normalized(components))
  {
    var c := Normalized(components)[i];
    assert c in Normalized(components) && c.dependsOn[j] in c.dependsOn;
  }

  /** Rejects the first dependency that names no component. */
  method CheckDependencies(components: seq<Component>, names: set<string>) returns (err: Option<GeneError>)
    requires forall n :: n in names <==> IsName(Normalized(components), n)
    ensures err.None? <==> DependenciesKnown(Normalized(components))
    ensures err.Some? ==> exists i, j :: FirstMissing(components, err.value, i, j)
  {
    for i := 0 to |components|
      invariant forall k :: 0 <= k < i ==> Named(components[k], |components[k].dependsOn|, names)
    {
      var c := components[i];
      for j := 0 to |c.dependsOn|
        invariant Named(c, j, names)
      {
        var dep := NormalizeName(c.dependsOn[j]);
        if dep !in names {
          OneUnnamed(components, i, j);
          FirstUnnamed(components, names, i, j);
          return Some(MissingDependency(c.name, c.dependsOn[j]));
        }
      }
    }
    AllNamed(components, names);
    return None;
  }

  /** Names first, then dependencies, then cycles; the first failure is reported. */
  method ValidateComponents(components: seq<Component>) returns (err: Option<GeneError>)
    ensures err.None? <==> ValidGene(components)
    ensures err.Some? && (err.value.EmptyName? || err.value.DuplicateName?) <==> !NamesUsable(components)
    ensures !NamesUsable(components) ==> exists i :: FirstBadName(components, err.value, i)
    ensures err.Some? && err.value.MissingDependency?
            <==> NamesUsable(components) && !DependenciesKnown(Normalized(components))
    ensures err.Some? && err.value.MissingDependency? ==> exists i, j :: FirstMissing(components, err.value, i, j)
    ensures err.Some? && err.value.DependencyCycle? ==> Lasso(GraphOf(Normalized(components)), err.value.path)
  {
    var names;
    names, err := CheckNames(components);
    if err.Some? {
      return;
    }
    err := CheckDependencies(components, names);
    if err.Some? {
      return;
    }
    var adj := BuildAdjacency(components);
    var search := new CycleSearch(adj);
    var cycle := search.Search();
    if cycle.Some? {
      return Some(DependencyCycle(cycle.value));
    }
    return None;
  }

  // ---- agreement with the topological sort ----

  lemma RawNamesUnique(components: seq<Component>)
    requires UniqueNames(Normalized(components))
    ensures UniqueNames(components)
  {
    forall i, j | 0 <= i < j < |components| ensures components[i].name != components[j].name {
      assert Normalized(components)[i].name != Normalized(components)[j].name;
    }
  }

  /** Every raw dependency edge is a dependency edge between normalised names. */
  lemma EdgeNormalizes(components: seq<Component>, a: string, b: string)
    requires UniqueNames(Normalized(components))
    requires Edge(GraphOf(components), a, b)
    ensures Edge(GraphOf(Normalized(components)), NormalizeName(a), NormalizeName(b))
  {
    RawNamesUnique(components);
    GraphOfKeys(components);
    GraphOfUnique(components);
    GraphOfUnique(Normalized(components));
    var c :| c in components && c.name == a;
    var i :| 0 <= i < |components| && components[i] == c;
    var j :| 0 <= j < |c.dependsOn| && c.dependsOn[j] == b;
    var n := Normalized(components)[i];
    assert n in Normalized(components);
    assert n.dependsOn[j] == NormalizeName(b);
  }

  lemma {:induction false} RawAcyclic(components: seq<Component>)
    requires UniqueNames(Normalized(components)) && !HasCycle(GraphOf(Normalized(components)))
    ensures !HasCycle(GraphOf(components))
  {
    forall w ensures !IsCycle(GraphOf(components), w) {
      if IsCycle(GraphOf(components), w) {
        WalkNormalizes(components, w);
        assert IsCycle(GraphOf(Normalized(components)), NormalizeAll(w));
      }
    }
  }

  lemma {:induction false} WalkNormalizes(components: seq<Component>, w: seq<string>)
    requires UniqueNames(Normalized(components)) && IsWalk(GraphOf(components), w)
    ensures IsWalk(GraphOf(Normalized(components)), NormalizeAll(w))
  {
    var v := NormalizeAll(w);
    forall i {:trigger v[i]} | 0 <= i < |v| - 1 ensures Edge(GraphOf(Normalized(components)), v[i], v[i + 1]) {
      assert Edge(GraphOf(components), w[i], w[i + 1]);
      EdgeNormalizes(components, w[i], w[i + 1]);
    }
  }

  /**
   Validated components sort exactly when every dependency is spelled like a component name:
   validation compares normalised names, the sort compares raw ones.
   */
  lemma ValidGeneSortable(components: seq<Component>)
    requires ValidGene(components)
    ensures UniqueNames(components)
    ensures TopoSort.Sortable(components) <==> DependenciesKnown(components)
  {
    RawNamesUnique(components);
    RawAcyclic(components);
  }

  lemma NormalFormFixed(components: seq<Component>)
    requires InNormalForm(components)
    ensures Normalized(components) == components
  {
    forall i | 0 <= i < |components| ensures Normalized(components)[i] == components[i] {
      var c := components[i];
      assert c in components;
      assert NormalizeAll(c.dependsOn) == c.dependsOn;
    }
  }

  /** On names already in normal form the two checks agree completely. */
  lemma AgreementInNormalForm(components: seq<Component>)
    requires InNormalForm(components)
    ensures ValidGene(components) <==>
            UniqueNames(components) && (forall c :: c in components ==> c.name != "") && TopoSort.Sortable(components)
  {
    NormalFormFixed(components);
  }

  /** A gene that validates and still cannot be sorted: the dependency is spelled in lower case. */
  lemma SpellingBreaksAgreement()
    ensures var http := Component("HTTP", "", "", []);
            var app := Component("app", "", "", ["http"]);
            ValidGene([http, app]) && !TopoSort.Sortable([http, app])
  {
    var http, app := Component("HTTP", "", "", []), Component("app", "", "", ["http"]);
    SpellingValidates(http, app);
    SpellingNotSortable(http, app);
  }

  lemma SpellingValidates(http: Component, app: Component)
    requires http == Component("HTTP", "", "", []) && app == Component("app", "", "", ["http"])
    ensures ValidGene([http, app])
  {
    SpellingNormalized(http, app);
    var norm := [http.(name := "http"), app];
    SpellingGraph(norm);
    SpellingKnown(norm);
  }

  lemma SpellingKnown(norm: seq<Component>)
    requires norm == [Component("http", "", "", []), Component("app", "", "", ["http"])]
    ensures UniqueNames(norm) && DependenciesKnown(norm)
  {
    assert norm[0] in norm;
    assert IsName(norm, norm[0].name);
    forall c, d | c in norm && d in c.dependsOn ensures IsName(norm, d) {
      assert c == norm[1];
    }
  }

  lemma SpellingNotSortable(http: Component, app: Component)
    requires http == Component("HTTP", "", "", []) && app == Component("app", "", "", ["http"])
    ensures !DependenciesKnown([http, app])
  {
    var cs := [http, app];
    var dep := app.dependsOn[0];
    assert cs[1] in cs && dep in cs[1].dependsOn;
    assert dep[0] != http.name[0] && dep[0] != app.name[0];
    assert !IsName(cs, dep);
  }

  lemma SpellingNormalized(http: Component, app: Component)
    requires http == Component("HTTP", "", "", []) && app == Component("app", "", "", ["http"])
    ensures Normalized([http, app]) == [http.(name := "http"), app]
    ensures NormalizeName(http.name) == "http" && NormalizeName(app.name) == "app"
  {
    SpellingFacts();
    assert NormalizeAll([]) == [];
    assert NormalizeAll(["http"]) == ["http"];
  }

  lemma SpellingGraph(norm: seq<Component>)
    requires norm == [Component("http", "", "", []), Component("app", "", "", ["http"])]
    ensures !HasCycle(GraphOf(norm))
  {
    var g := GraphOf(norm);
    GraphOfUnique(norm);
    GraphOfKeys(norm);
    assert norm[0] in norm && norm[1] in norm;
    assert g["http"] == [] && g["app"] == ["http"];
    forall a, b | Edge(g, a, b) ensures a == "app" && b == "http" {
    }
    var rank := map["http" := 0, "app" := 1];
    forall w ensures !IsCycle(g, w) {
      if IsCycle(g, w) {
        RankedWalkDescends(g, rank, w, |w| - 1);
      }
    }
  }

  lemma SpellingFacts()
    ensures NormalizeName("HTTP") == "http" && NormalizeName("app") == "app" && NormalizeName("http") == "http"
  {
    OneWord("HTTP", "http");
    OneWord("app", "app");
    OneWord("http", "http");
  }

  lemma OneWord(s: string, w: string)
    requires ToLower(s) == w && IsWord(w)
    ensures NormalizeName(s) == w
  {
    FieldsOfJoin([w]);
    assert Join([w], ' ') == w;
  }
}
