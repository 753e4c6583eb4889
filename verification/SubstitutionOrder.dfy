/** How far orders fall short of simultaneous substitution: counting the braces they leave. */
module SubstitutionOrder {
  import opened Substitution

  /** Opening braces; a substitution of a brace-free value removes exactly one. */
  function Opens(s: string): nat {
    if s == [] then 0 else (if s[0] == '{' then 1 else 0) + Opens(s[1..])
  }

  /** Placeholders a simultaneous substitution would replace. */
  function CountVars(s: string, vars: Vars): nat
    decreases |s|
  {
    if s == [] then 0
    else if StartsVar(s, vars) then 1 + CountVars(AfterVar(s), vars)
    else CountVars(s[1..], vars)
  }

  /** Some position of s forges the placeholder of m. */
  predicate HasForgeOf(s: string, vars: Vars, m: string) {
    s != [] && ((Forges(s, vars) && Expand(s[1..], vars).name == m) || HasForgeOf(s[1..], vars, m))
  }

  lemma {:induction false} ForgeOfSomeone(s: string, vars: Vars) returns (m: string)
    requires HasForge(s, vars)
    ensures HasForgeOf(s, vars, m) && m in vars
  {
    if Forges(s, vars) {
      m := Expand(s[1..], vars).name;
    } else {
      m := ForgeOfSomeone(s[1..], vars);
    }
  }

  lemma {:induction false} OpensConcat(a: string, b: string)
    ensures Opens(a + b) == Opens(a) + Opens(b)
  {
    if a == [] {
      assert a + b == b;
    } else {
      assert (a + b)[1..] == a[1..] + b;
      OpensConcat(a[1..], b);
    }
  }

  lemma {:induction false} OpensOfNone(w: string)
    requires NoOpen(w)
    ensures Opens(w) == 0
  {
    if w != [] {
      assert w[0] in w;
      OpensOfNone(w[1..]);
    }
  }

  lemma {:induction false} SkipNoOpen(w: string, t: string, vars: Vars, m: string)
    requires NoOpen(w)
    ensures CountVars(w + t, vars) == CountVars(t, vars)
    ensures HasForgeOf(w + t, vars, m) <==> HasForgeOf(t, vars, m)
  {
    if w == [] {
      assert w + t == t;
    } else {
      assert w[0] in w;
      assert (w + t)[1..] == w[1..] + t;
      SkipNoOpen(w[1..], t, vars, m);
    }
  }

  /** A placeholder's text holds one opening brace, no other placeholder and no forging. */
  lemma AtVar(s: string, vars: Vars, other: Vars, m: string)
    requires StartsVar(s, vars) && Plain(vars)
    ensures Opens(s) == 1 + Opens(AfterVar(s))
    ensures !StartsVar(s, other) ==> CountVars(s, other) == CountVars(AfterVar(s), other)
    ensures HasForgeOf(s, vars, m) <==> HasForgeOf(AfterVar(s), vars, m)
  {
    VarText(s, vars);
    var w := NameAt(s) + "}";
    OpensConcat(w, AfterVar(s));
    OpensOfNone(w);
    SkipNoOpen(w, AfterVar(s), other, m);
    SkipNoOpen(w, AfterVar(s), vars, m);
  }

  lemma {:induction false} OpensAfterSubstitution(s: string, vars: Vars)
    requires Plain(vars)
    ensures Opens(Simultaneous(s, vars)) + CountVars(s, vars) == Opens(s)
    decreases |s|
  {
    if s != [] {
      if StartsVar(s, vars) {
        AtVar(s, vars, vars, "");
        var v := vars[NameAt(s)];
        OpensConcat(v, Simultaneous(AfterVar(s), vars));
        OpensOfNone(v);
        OpensAfterSubstitution(AfterVar(s), vars);
      } else {
        OpensAfterSubstitution(s[1..], vars);
        assert ([s[0]] + Simultaneous(s[1..], vars))[1..] == Simultaneous(s[1..], vars);
      }
    }
  }

  lemma {:induction false} CountVarsSplit(s: string, all: Vars, rest: Vars, n: string, v: string)
    requires Extends(all, rest, n, v)
    ensures CountVars(s, all) == CountVars(s, rest) + CountVars(s, map[n := v])
    decreases |s|
  {
    if s != [] {
      StartsVarSplit(s, all, rest, n, v);
      if StartsVar(s, map[n := v]) {
        AtVar(s, map[n := v], rest, "");
        CountVarsSplit(AfterVar(s), all, rest, n, v);
      } else if StartsVar(s, rest) {
        AtVar(s, rest, map[n := v], "");
        CountVarsSplit(AfterVar(s), all, rest, n, v);
      } else {
        CountVarsSplit(s[1..], all, rest, n, v);
      }
    }
  }

  /** The stretch that becomes m} when n is replaced holds no placeholder of another variable. */
  lemma {:induction false} FrontHoldsNoOthers(t: string, all: Vars, rest: Vars,
                                              n: string, v: string, m: string, x: string)
      returns (u: string)
    requires Extends(all, rest, n, v) && BraceFree(m)
    requires Simultaneous(t, map[n := v]) == m + "}" + x
    ensures x == Simultaneous(u, map[n := v]) && |u| < |t| && CountVars(t, rest) == CountVars(u, rest)
    decreases |t|
  {
    StartsVarSplit(t, all, rest, n, v);
    assert Simultaneous(t, map[n := v])[|m|] == '}';
    if StartsVar(t, map[n := v]) {
      AtVar(t, map[n := v], rest, "");
      CancelFront(v, Simultaneous(AfterVar(t), map[n := v]), m, x);
      u := FrontHoldsNoOthers(AfterVar(t), all, rest, n, v, m[|v|..], x);
    } else if t[0] == '}' {
      FrontIsEmpty(m, x);
      u := t[1..];
      assert Simultaneous(t, map[n := v])[1..] == x;
    } else {
      CancelFront([t[0]], Simultaneous(t[1..], map[n := v]), m, x);
      assert m[0] in m;
      u := FrontHoldsNoOthers(t[1..], all, rest, n, v, m[1..], x);
    }
  }

  /** Replacing n never destroys a placeholder of another variable. */
  lemma {:induction false} VarsSurvive(s: string, all: Vars, rest: Vars, n: string, v: string)
    requires Extends(all, rest, n, v)
    ensures CountVars(Simultaneous(s, map[n := v]), rest) >= CountVars(s, rest)
    decreases |s|
  {
    if s != [] {
      StartsVarSplit(s, all, rest, n, v);
      if StartsVar(s, map[n := v]) {
        AtVar(s, map[n := v], rest, "");
        SkipNoOpen(v, Simultaneous(AfterVar(s), map[n := v]), rest, "");
        VarsSurvive(AfterVar(s), all, rest, n, v);
      } else if StartsVar(s, rest) {
        OtherVarSurvives(s, all, rest, n, v);
        VarsSurvive(AfterVar(s), all, rest, n, v);
      } else if StartsVar(Simultaneous(s, map[n := v]), rest) {
        var u := ForgedRemainder(s, all, rest, n, v);
        VarsSurvive(u, all, rest, n, v);
      } else {
        VarsSurvive(s[1..], all, rest, n, v);
      }
    }
  }

  /** Where replacing n forges a placeholder, that placeholder is one more than the text had. */
  lemma ForgedRemainder(s: string, all: Vars, rest: Vars, n: string, v: string) returns (u: string)
    requires Extends(all, rest, n, v)
    requires s != [] && !StartsVar(s, all) && StartsVar(Simultaneous(s, map[n := v]), rest)
    ensures |u| < |s| && CountVars(s, rest) == CountVars(u, rest)
    ensures CountVars(Simultaneous(s, map[n := v]), rest) == 1 + CountVars(Simultaneous(u, map[n := v]), rest)
  {
    StartsVarSplit(s, all, rest, n, v);
    var t, s' := s[1..], Simultaneous(s, map[n := v]);
    assert s' == [s[0]] + Simultaneous(t, map[n := v]);
    VarText(s', rest);
    u := FrontHoldsNoOthers(t, all, rest, n, v, NameAt(s'), AfterVar(s'));
  }

  /** Replacing another variable first either fills in the forged placeholder of m or leaves it to be forged. */
  ghost predicate GrowsOrStays(s: string, rest: Vars, n: string, v: string, m: string) {
    var s' := Simultaneous(s, map[n := v]);
    CountVars(s', rest) > CountVars(s, rest) || HasForgeOf(s', rest, m)
  }

  lemma GrowsOrStaysAtVar(s: string, all: Vars, rest: Vars, n: string, v: string, m: string)
    requires Extends(all, rest, n, v) && StartsVar(s, all)
    requires GrowsOrStays(AfterVar(s), rest, n, v, m)
    ensures GrowsOrStays(s, rest, n, v, m)
  {
    StartsVarSplit(s, all, rest, n, v);
    var s' := Simultaneous(s, map[n := v]);
    if StartsVar(s, rest) {
      OtherVarSurvives(s, all, rest, n, v);
      AtVar(s', rest, rest, m);
    } else {
      AtVar(s, map[n := v], rest, m);
      SkipNoOpen(v, Simultaneous(AfterVar(s), map[n := v]), rest, m);
    }
  }

  lemma {:induction false} ForgeGrowsOrStays(s: string, all: Vars, rest: Vars, n: string, v: string, m: string)
    requires Extends(all, rest, n, v) && m != n && HasForgeOf(s, all, m)
    ensures GrowsOrStays(s, rest, n, v, m)
    decreases |s|
  {
    var s' := Simultaneous(s, map[n := v]);
    if StartsVar(s, all) {
      AtVar(s, all, all, m);
      ForgeGrowsOrStays(AfterVar(s), all, rest, n, v, m);
      GrowsOrStaysAtVar(s, all, rest, n, v, m);
    } else {
      StartsVarSplit(s, all, rest, n, v);
      assert s' == [s[0]] + Simultaneous(s[1..], map[n := v]);
      if StartsVar(s', rest) {
        var u := ForgedRemainder(s, all, rest, n, v);
        VarsSurvive(u, all, rest, n, v);
      } else if HasForgeOf(s[1..], all, m) {
        ForgeGrowsOrStays(s[1..], all, rest, n, v, m);
      } else {
        ExpandAfterReplace(s[1..], all, rest, n, v);
      }
    }
  }

  /** Replacing n first keeps or lowers the braces left by replacing the rest all at once. */
  lemma OpensAfterStep(s: string, all: Vars, rest: Vars, n: string, v: string)
    requires Extends(all, rest, n, v)
    ensures var s' := Simultaneous(s, map[n := v]);
            Opens(Simultaneous(s', rest)) + CountVars(s', rest) == Opens(Simultaneous(s, all)) + CountVars(s, rest)
  {
    var s' := Simultaneous(s, map[n := v]);
    OpensAfterSubstitution(s, map[n := v]);
    OpensAfterSubstitution(s', rest);
    OpensAfterSubstitution(s, all);
    CountVarsSplit(s, all, rest, n, v);
  }

  /** No order leaves more opening braces than substituting all at once. */
  lemma {:induction false} SimultaneousLeavesMost(s: string, order: seq<string>, vars: Vars)
    requires Plain(vars) && IsOrder(order, vars)
    ensures Opens(InOrder(s, order, vars)) <= Opens(Simultaneous(s, vars))
    decreases |order|
  {
    if order == [] {
      assert vars == map[];
      NothingToSubstitute(s);
    } else {
      var n := order[0];
      var rest := RestOfOrder(order, vars);
      OrderStep(s, order, vars, rest);
      OpensAfterStep(s, vars, rest, n, vars[n]);
      VarsSurvive(s, vars, rest, n, vars[n]);
      SimultaneousLeavesMost(Simultaneous(s, map[n := vars[n]]), order[1..], rest);
    }
  }

  lemma {:induction false} UsedAreVars(t: string, vars: Vars)
    ensures Expand(t, vars).Expansion? ==> Expand(t, vars).used <= vars.Keys
    decreases |t|
  {
    if t != [] && t[0] != '}' {
      if StartsVar(t, vars) { UsedAreVars(AfterVar(t), vars); }
      else if t[0] != '{' { UsedAreVars(t[1..], vars); }
    }
  }

  /** One variable alone forges nothing. */
  lemma {:induction false} AloneNeverForges(s: string, m: string, v: string)
    ensures !HasForgeOf(s, map[m := v], m)
  {
    if s != [] {
      AloneNeverForges(s[1..], m, v);
      if Forges(s, map[m := v]) {
        UsedAreVars(s[1..], map[m := v]);
        ForgingUsesOthers(s, map[m := v]);
      }
    }
  }

  /** One step towards an order ending with the forged variable: the forging is done or still to come. */
  lemma ForgedStep(s: string, all: Vars, rest: Vars, n: string, v: string, m: string)
    requires Extends(all, rest, n, v) && m != n && HasForgeOf(s, all, m)
    ensures var s' := Simultaneous(s, map[n := v]);
            var left, most := Opens(Simultaneous(s', rest)), Opens(Simultaneous(s, all));
            left < most || (left == most && HasForgeOf(s', rest, m))
  {
    OpensAfterStep(s, all, rest, n, v);
    VarsSurvive(s, all, rest, n, v);
    ForgeGrowsOrStays(s, all, rest, n, v, m);
  }

  lemma OnlyKey(order: seq<string>, vars: Vars, m: string)
    requires IsOrder(order, vars) && order == [m]
    ensures vars == map[m := vars[m]]
  {
    assert forall k :: k in vars <==> k == m;
  }

  /** The forged variable substituted last is substituted once too often: an opening brace fewer is left. */
  lemma {:induction false} ForgedLast(s: string, init: seq<string>, m: string, vars: Vars)
    requires Plain(vars) && IsOrder(init + [m], vars) && HasForgeOf(s, vars, m)
    ensures Opens(InOrder(s, init + [m], vars)) < Opens(Simultaneous(s, vars))
    decreases |init|
  {
    var order := init + [m];
    if init == [] {
      OnlyKey(order, vars, m);
      AloneNeverForges(s, m, vars[m]);
    } else {
      var n := order[0];
      assert n != m by { assert order[|order| - 1] == m; }
      assert order[1..] == init[1..] + [m];
      var rest := RestOfOrder(order, vars);
      var s' := Simultaneous(s, map[n := vars[n]]);
      OrderStep(s, order, vars, rest);
      ForgedStep(s, vars, rest, n, vars[n], m);
      if HasForgeOf(s', rest, m) {
        ForgedLast(s', init[1..], m, rest);
      } else {
        SimultaneousLeavesMost(s', order[1..], rest);
      }
    }
  }

  lemma {:induction false} SomeOrder(keys: set<string>) returns (order: seq<string>)
    ensures forall n :: n in order <==> n in keys
    ensures forall i, j :: 0 <= i < j < |order| ==> order[i] != order[j]
  {
    if keys == {} {
      order := [];
    } else {
      var n :| n in keys;
      var tail := SomeOrder(keys - {n});
      order := [n] + tail;
    }
  }

  lemma OrderEndingWith(vars: Vars, m: string) returns (init: seq<string>)
    requires m in vars
    ensures IsOrder(init + [m], vars)
  {
    init := SomeOrder(vars.Keys - {m});
  }

  /**
   Every iteration order of the map yields the simultaneous substitution exactly when no position of the text forges a
   placeholder.
   */
  lemma SimultaneousIff(s: string, vars: Vars)
    requires Plain(vars)
    ensures (forall order :: IsOrder(order, vars) ==> InOrder(s, order, vars) == Simultaneous(s, vars)) <==>
        !HasForge(s, vars)
  {
    if HasForge(s, vars) {
      var m := ForgeOfSomeone(s, vars);
      var init := OrderEndingWith(vars, m);
      ForgedLast(s, init, m, vars);
    } else {
      forall order | IsOrder(order, vars) ensures InOrder(s, order, vars) == Simultaneous(s, vars) {
        EveryOrderAgrees(s, order, vars);
      }
    }
  }

  // ---- values with braces ----

  /** A value holding a placeholder makes even flat text depend on the order. */
  lemma BracesInValuesMatter()
    ensures var vars := map["a" := "{b}", "b" := "x"];
            && Flat("{a}") && IsOrder(["a", "b"], vars) && IsOrder(["b", "a"], vars)
            && InOrder("{a}", ["a", "b"], vars) == "x" && InOrder("{a}", ["b", "a"], vars) == "{b}"
  {
    var vars := map["a" := "{b}", "b" := "x"];
    ReplacedWhole("a", "{b}");
    ReplacedWhole("b", "x");
    NotReplaced();
    assert InOrder("{b}", ["b"], vars) == InOrder("x", [], vars);
    assert InOrder("{a}", ["a"], vars) == InOrder("{b}", [], vars);
  }

  lemma ReplacedWhole(name: string, value: string)
    ensures ReplaceAll(Placeholder(name), Placeholder(name), value) == value
  {
    var p := Placeholder(name);
    assert p[|p|..] == [];
    assert ReplaceAll([], p, value) == [];
  }

  lemma NotReplaced()
    ensures ReplaceAll("{a}", "{b}", "x") == "{a}"
  {
    assert "{a}"[1] == 'a';
    assert ReplaceAll("}", "{b}", "x") == "}";
    assert ReplaceAll("a}", "{b}", "x") == "a}";
  }
}
