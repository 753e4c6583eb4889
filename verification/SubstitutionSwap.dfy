/** Two iteration orders that give different texts, wherever a text forges a placeholder. */
module SubstitutionSwap {
  import opened Substitution
  import opened SubstitutionOrder
  import opened PieceWords

  /** What follows the closing brace that reading on reaches. */
  function AfterExpand(t: string, vars: Vars): (r: string)
    requires Expand(t, vars).Expansion?
    ensures |r| < |t|
    decreases |t|
  {
    if t[0] == '}' then t[1..]
    else if StartsVar(t, vars) then AfterExpand(AfterVar(t), vars)
    else AfterExpand(t[1..], vars)
  }

  /** The text cut into what every order agrees on and the placeholders it forges. */
  function Pieces(s: string, vars: Vars): seq<Piece>
    decreases |s|
  {
    if s == [] then []
    else if StartsVar(s, vars) then [Same(vars[NameAt(s)])] + Pieces(AfterVar(s), vars)
    else if Forges(s, vars) then [Forged(Expand(s[1..], vars).name)] + Pieces(AfterExpand(s[1..], vars), vars)
    else [Same([s[0]])] + Pieces(s[1..], vars)
  }

  lemma {:induction false} ForgingLeavesPieces(s: string, vars: Vars)
    requires Plain(vars) && HasForge(s, vars)
    ensures exists n :: n in vars && Mentions(Pieces(s, vars), n)
    decreases |s|
  {
    if Forges(s, vars) {
      assert Pieces(s, vars)[0] == Forged(Expand(s[1..], vars).name);
    } else {
      var rest := if StartsVar(s, vars) then AfterVar(s) else s[1..];
      if StartsVar(s, vars) { VarTail(s, vars); }
      ForgingLeavesPieces(rest, vars);
      var n :| n in vars && Mentions(Pieces(rest, vars), n);
      assert Forged(n) in Pieces(s, vars);
    }
  }

  lemma {:induction false} PiecesForgeVars(s: string, vars: Vars)
    ensures OnlyForges(Pieces(s, vars), vars.Keys)
    decreases |s|
  {
    if s != [] {
      PiecesForgeVars(
        if StartsVar(s, vars) then AfterVar(s)
        else if Forges(s, vars) then AfterExpand(s[1..], vars) else s[1..], vars);
    }
  }

  // ---- n first, then the others all at once ----

  function Then(s: string, n: string, v: string, rest: Vars): string {
    Simultaneous(Simultaneous(s, map[n := v]), rest)
  }

  lemma ThenAtVar(s: string, all: Vars, rest: Vars, n: string, v: string)
    requires Extends(all, rest, n, v) && StartsVar(s, all)
    ensures Then(s, n, v, rest) == all[NameAt(s)] + Then(AfterVar(s), n, v, rest)
  {
    StartsVarSplit(s, all, rest, n, v);
    if StartsVar(s, map[n := v]) {
      NoOpenPassesThrough(v, Simultaneous(AfterVar(s), map[n := v]), rest);
    } else {
      OtherVarSurvives(s, all, rest, n, v);
    }
  }

  lemma ThenAtLiteral(s: string, all: Vars, rest: Vars, n: string, v: string)
    requires Extends(all, rest, n, v) && s != [] && !StartsVar(s, all)
    requires !StartsVar(Simultaneous(s, map[n := v]), rest)
    ensures Then(s, n, v, rest) == [s[0]] + Then(s[1..], n, v, rest)
  {
    StartsVarSplit(s, all, rest, n, v);
    assert Simultaneous(s, map[n := v])[1..] == Simultaneous(s[1..], map[n := v]);
  }

  /** Past an expansion: its name, its closing brace and what comes after. */
  lemma {:induction false} ThenPastExpansion(t: string, all: Vars, rest: Vars, n: string, v: string)
    requires Extends(all, rest, n, v) && Expand(t, all).Expansion?
    ensures Then(t, n, v, rest) == Expand(t, all).name + "}" + Then(AfterExpand(t, all), n, v, rest)
    decreases |t|
  {
    if t[0] == '}' {
      ThenAtLiteral(t, all, rest, n, v);
    } else if StartsVar(t, all) {
      ThenAtVar(t, all, rest, n, v);
      ThenPastExpansion(AfterVar(t), all, rest, n, v);
      Regroup(all[NameAt(t)], Expand(AfterVar(t), all).name + "}", Then(AfterExpand(t, all), n, v, rest));
    } else {
      ThenAtLiteral(t, all, rest, n, v);
      ThenPastExpansion(t[1..], all, rest, n, v);
      Regroup([t[0]], Expand(t[1..], all).name + "}", Then(AfterExpand(t, all), n, v, rest));
    }
  }

  ghost predicate SpelledOut(t: string, all: Vars, n: string, v: string)
    requires Expand(t, all).Expansion?
  {
    Simultaneous(t, map[n := v]) == Expand(t, all).name + "}" + Simultaneous(AfterExpand(t, all), map[n := v])
  }

  lemma SpelledOutAtVar(t: string, all: Vars, rest: Vars, n: string, v: string)
    requires Extends(all, rest, n, v) && StartsVar(t, map[n := v]) && Expand(t, all).Expansion?
    requires StartsVar(t, all) && Expand(AfterVar(t), all).Expansion? && SpelledOut(AfterVar(t), all, n, v)
    ensures SpelledOut(t, all, n, v)
  {
    Regroup(v, Expand(AfterVar(t), all).name + "}", Simultaneous(AfterExpand(t, all), map[n := v]));
  }

  /** Where only n was used, replacing n already spells the name out. */
  lemma {:induction false} OwnExpansion(t: string, all: Vars, rest: Vars, n: string, v: string)
    requires Extends(all, rest, n, v) && Expand(t, all).Expansion? && Expand(t, all).used <= {n}
    ensures SpelledOut(t, all, n, v)
    decreases |t|
  {
    StartsVarSplit(t, all, rest, n, v);
    if t[0] != '}' {
      if StartsVar(t, all) {
        assert NameAt(t) in Expand(t, all).used;
        OwnExpansion(AfterVar(t), all, rest, n, v);
        SpelledOutAtVar(t, all, rest, n, v);
      } else {
        OwnExpansion(t[1..], all, rest, n, v);
        Regroup([t[0]], Expand(t[1..], all).name + "}", Simultaneous(AfterExpand(t, all), map[n := v]));
      }
    }
  }

  /** A placeholder's own name is all that reading on finds. */
  lemma VarExpandsVerbatim(s: string, vars: Vars)
    requires Plain(vars) && StartsVar(s, vars)
    ensures Expand(s[1..], vars) == Expansion(NameAt(s), {})
  {
    VarText(s, vars);
    ExpandPastValue(NameAt(s), "}" + AfterVar(s), vars);
    assert s[1..] == NameAt(s) + ("}" + AfterVar(s));
    assert NameAt(s) + "" == NameAt(s);
  }

  lemma UsedNotVerbatim(t: string, vars: Vars)
    requires Plain(vars) && Expand(t, vars).Expansion? && Expand(t, vars).used != {}
    ensures !StartsVar("{" + t, vars)
  {
    assert ("{" + t)[1..] == t;
    if StartsVar("{" + t, vars) {
      VarExpandsVerbatim("{" + t, vars);
    }
  }

  /** Another variable forged with n alone: replacing n makes its placeholder, which is then replaced. */
  lemma ThenAtForgedOther(s: string, all: Vars, rest: Vars, n: string, v: string)
    requires Extends(all, rest, n, v) && Forges(s, all)
    requires var e := Expand(s[1..], all); e.name in rest && e.used <= {n}
    ensures Then(s, n, v, rest) == rest[Expand(s[1..], all).name] + Then(AfterExpand(s[1..], all), n, v, rest)
  {
    var name, r := Expand(s[1..], all).name, AfterExpand(s[1..], all);
    OwnExpansion(s[1..], all, rest, n, v);
    StartsVarSplit(s, all, rest, n, v);
    var s' := Simultaneous(s, map[n := v]);
    assert s' == "{" + (name + "}" + Simultaneous(r, map[n := v]));
    StartsVarAgain(name, Simultaneous(r, map[n := v]), rest);
  }

  /** n forged with others: replacing n first leaves its placeholder as text. */
  lemma ThenAtForgedOwn(s: string, all: Vars, rest: Vars, n: string, v: string)
    requires Extends(all, rest, n, v) && Forges(s, all) && Expand(s[1..], all).name == n
    ensures Then(s, n, v, rest) == Placeholder(n) + Then(AfterExpand(s[1..], all), n, v, rest)
  {
    var t := s[1..];
    ForgingUsesOthers(s, all);
    ExpandAfterReplace(t, all, rest, n, v);
    assert Expand(t, all).used - {n} == Expand(t, all).used;
    StartsVarSplit(s, all, rest, n, v);
    UsedNotVerbatim(Simultaneous(t, map[n := v]), rest);
    assert Simultaneous(s, map[n := v]) == "{" + Simultaneous(t, map[n := v]);
    ThenAtLiteral(s, all, rest, n, v);
    ThenPastExpansion(t, all, rest, n, v);
    Regroup("{", n + "}", Then(AfterExpand(t, all), n, v, rest));
    assert "{" + (n + "}") == Placeholder(n);
  }

  lemma ThenAtPlain(s: string, all: Vars, rest: Vars, n: string, v: string)
    requires Extends(all, rest, n, v) && s != [] && !StartsVar(s, all) && !Forges(s, all)
    ensures Then(s, n, v, rest) == [s[0]] + Then(s[1..], n, v, rest)
  {
    StartsVarSplit(s, all, rest, n, v);
    if StartsVar(Simultaneous(s, map[n := v]), rest) {
      NewVarIsForged(s, all, rest, n, v);
    }
    ThenAtLiteral(s, all, rest, n, v);
  }

  predicate PairOf(n: string, v: string, k: string, w: string) {
    n != k && BraceFree(n) && BraceFree(v) && BraceFree(k) && BraceFree(w)
  }

  lemma PairExtends(n: string, v: string, k: string, w: string)
    requires PairOf(n, v, k, w)
    ensures Extends(map[n := v, k := w], map[k := w], n, v)
  {
    assert map[n := v, k := w] == map[k := w][n := v];
  }

  /** Replacing n and then k: a forged k is filled in, a forged n left as its placeholder. */
  lemma {:induction false} TwoSteps(s: string, n: string, v: string, k: string, w: string)
    requires PairOf(n, v, k, w)
    ensures Then(s, n, v, map[k := w]) == Spell(Pieces(s, map[n := v, k := w]), map[k := w, n := Placeholder(n)])
    decreases |s|
  {
    var all, rest := map[n := v, k := w], map[k := w];
    PairExtends(n, v, k, w);
    if s == [] {
    } else if StartsVar(s, all) {
      ThenAtVar(s, all, rest, n, v);
      TwoSteps(AfterVar(s), n, v, k, w);
    } else if Forges(s, all) {
      var e, r := Expand(s[1..], all), AfterExpand(s[1..], all);
      TwoSteps(r, n, v, k, w);
      UsedAreVars(s[1..], all);
      if e.name == k {
        assert e.used <= {n};
        ThenAtForgedOther(s, all, rest, n, v);
      } else {
        ThenAtForgedOwn(s, all, rest, n, v);
      }
    } else {
      ThenAtPlain(s, all, rest, n, v);
      TwoSteps(s[1..], n, v, k, w);
    }
  }

  lemma PairForges(s: string, n: string, v: string, k: string, w: string)
    requires PairOf(n, v, k, w) && HasForge(s, map[n := v, k := w])
    ensures var pieces := Pieces(s, map[n := v, k := w]);
            OnlyForges(pieces, {k, n}) && (Mentions(pieces, k) || Mentions(pieces, n))
  {
    PairExtends(n, v, k, w);
    ForgingLeavesPieces(s, map[n := v, k := w]);
    PiecesForgeVars(s, map[n := v, k := w]);
    assert map[n := v, k := w].Keys == {k, n};
  }

  lemma PairSwapped(n: string, v: string, k: string, w: string)
    requires n != k
    ensures map[n := v, k := w] == map[k := w, n := v]
  {
  }

  /** With two variables, swapping them changes the result wherever one is forged. */
  lemma TwoVariablesDiffer(s: string, n: string, v: string, k: string, w: string)
    requires PairOf(n, v, k, w) && HasForge(s, map[n := v, k := w])
    ensures Then(s, n, v, map[k := w]) != Then(s, k, w, map[n := v])
  {
    PairSwapped(n, v, k, w);
    TwoSteps(s, n, v, k, w);
    TwoSteps(s, k, w, n, v);
    PairForges(s, n, v, k, w);
    ForgedRowDiffers(Pieces(s, map[n := v, k := w]), k, w, n, v);
    PairSwapped(k, Placeholder(k), n, v);
  }

  // ---- down to two variables ----

  /** The start of s forges m with the help of u. */
  predicate ForgesWith(s: string, vars: Vars, m: string, u: string) {
    Forges(s, vars) && Expand(s[1..], vars).name == m && u in Expand(s[1..], vars).used
  }

  predicate HasForgeWith(s: string, vars: Vars, m: string, u: string) {
    s != [] && (ForgesWith(s, vars, m, u) || HasForgeWith(s[1..], vars, m, u))
  }

  lemma {:induction false} WithIsForge(s: string, vars: Vars, m: string, u: string)
    requires HasForgeWith(s, vars, m, u)
    ensures HasForge(s, vars) && m in vars && u in vars && m != u
  {
    if ForgesWith(s, vars, m, u) {
      UsedAreVars(s[1..], vars);
    } else {
      WithIsForge(s[1..], vars, m, u);
    }
  }

  lemma {:induction false} ForgeWithSome(s: string, vars: Vars) returns (m: string, u: string)
    requires HasForge(s, vars)
    ensures HasForgeWith(s, vars, m, u)
  {
    if Forges(s, vars) {
      ForgingUsesOthers(s, vars);
      m := Expand(s[1..], vars).name;
      u :| u in Expand(s[1..], vars).used;
    } else {
      m, u := ForgeWithSome(s[1..], vars);
    }
  }

  lemma {:induction false} SkipNoOpenWith(w: string, t: string, vars: Vars, m: string, u: string)
    requires NoOpen(w)
    ensures HasForgeWith(w + t, vars, m, u) <==> HasForgeWith(t, vars, m, u)
  {
    if w == [] {
      assert w + t == t;
    } else {
      assert w[0] in w;
      assert (w + t)[1..] == w[1..] + t;
      SkipNoOpenWith(w[1..], t, vars, m, u);
    }
  }

  lemma WithAtVar(s: string, vars: Vars, some: Vars, m: string, u: string)
    requires StartsVar(s, some) && Plain(some) && (StartsVar(s, vars) || !Forges(s, vars))
    ensures HasForgeWith(s, vars, m, u) <==> HasForgeWith(AfterVar(s), vars, m, u)
  {
    VarText(s, some);
    SkipNoOpenWith(NameAt(s) + "}", AfterVar(s), vars, m, u);
  }

  /** An expansion holds no other literal brace, so nothing is forged inside it. */
  lemma {:induction false} NothingForgedInside(t: string, vars: Vars, m: string, u: string)
    requires Plain(vars) && Expand(t, vars).Expansion?
    ensures HasForgeWith(t, vars, m, u) <==> HasForgeWith(AfterExpand(t, vars), vars, m, u)
    decreases |t|
  {
    if t[0] == '}' {
    } else if StartsVar(t, vars) {
      WithAtVar(t, vars, vars, m, u);
      NothingForgedInside(AfterVar(t), vars, m, u);
    } else {
      NothingForgedInside(t[1..], vars, m, u);
    }
  }

  /** Replacing n keeps every placeholder that is forged without it. */
  lemma {:induction false} WithStays(s: string, all: Vars, rest: Vars, n: string, v: string, m: string, u: string)
    requires Extends(all, rest, n, v) && n != m && n != u && HasForgeWith(s, all, m, u)
    ensures HasForgeWith(Simultaneous(s, map[n := v]), rest, m, u)
    decreases |s|
  {
    var s' := Simultaneous(s, map[n := v]);
    StartsVarSplit(s, all, rest, n, v);
    if StartsVar(s, map[n := v]) {
      WithAtVar(s, all, all, m, u);
      WithStays(AfterVar(s), all, rest, n, v, m, u);
      SkipNoOpenWith(v, Simultaneous(AfterVar(s), map[n := v]), rest, m, u);
    } else if StartsVar(s, rest) {
      WithAtVar(s, all, all, m, u);
      WithStays(AfterVar(s), all, rest, n, v, m, u);
      OtherVarSurvives(s, all, rest, n, v);
      WithAtVar(s', rest, rest, m, u);
    } else if StartsVar(s', rest) {
      WithPastNewVar(s, all, rest, n, v, m, u);
      WithStays(AfterExpand(s[1..], all), all, rest, n, v, m, u);
    } else if ForgesWith(s, all, m, u) {
      ExpandAfterReplace(s[1..], all, rest, n, v);
    } else {
      WithStays(s[1..], all, rest, n, v, m, u);
    }
  }

  /** Where replacing n makes a placeholder, n alone was used, and the rest of the text follows it. */
  lemma WithPastNewVar(s: string, all: Vars, rest: Vars, n: string, v: string, m: string, u: string)
    requires Extends(all, rest, n, v) && n != u && s != [] && !StartsVar(s, all)
    requires StartsVar(Simultaneous(s, map[n := v]), rest)
    ensures s[0] == '{' && Expand(s[1..], all).Expansion?
    ensures HasForgeWith(s, all, m, u) <==> HasForgeWith(AfterExpand(s[1..], all), all, m, u)
    ensures HasForgeWith(Simultaneous(s, map[n := v]), rest, m, u)
        <==> HasForgeWith(Simultaneous(AfterExpand(s[1..], all), map[n := v]), rest, m, u)
  {
    StartsVarSplit(s, all, rest, n, v);
    var t, s' := s[1..], Simultaneous(s, map[n := v]);
    assert s' == [s[0]] + Simultaneous(t, map[n := v]);
    VarText(s', rest);
    var _ := FrontAfterReplace(t, all, rest, n, v, NameAt(s'), AfterVar(s'));
    NothingForgedInside(t, all, m, u);
    OwnExpansion(t, all, rest, n, v);
    assert s' == "{" + (NameAt(s') + "}" + Simultaneous(AfterExpand(t, all), map[n := v]));
    StartsVarAgain(NameAt(s'), Simultaneous(AfterExpand(t, all), map[n := v]), rest);
    WithAtVar(s', rest, rest, m, u);
  }

  // ---- two orders ----

  lemma TwoLeft(s: string, u: string, m: string, vars: Vars)
    requires Plain(vars) && IsOrder([u, m], vars)
    ensures vars == map[u := vars[u], m := vars[m]] && u != m
    ensures InOrder(s, [u, m], vars) == Then(s, u, vars[u], map[m := vars[m]])
  {
    assert [u, m][0] != [u, m][1] && u in [u, m] && m in [u, m];
    assert forall n :: n in vars <==> n == u || n == m;
    var s' := ReplaceAll(s, Placeholder(u), vars[u]);
    ReplaceAllIsSimultaneous(s, u, vars[u]);
    ReplaceAllIsSimultaneous(s', m, vars[m]);
    assert [u, m][1..] == [m];
    assert InOrder(s', [m], vars) == InOrder(ReplaceAll(s', Placeholder(m), vars[m]), [], vars);
  }

  lemma SwappedOrder(init: seq<string>, u: string, m: string, vars: Vars)
    requires IsOrder(init + [u, m], vars)
    ensures IsOrder(init + [m, u], vars)
  {
    var one, two := init + [u, m], init + [m, u];
    assert one[|init|] == u && one[|init| + 1] == m;
    forall n ensures n in one <==> n in two {}
    forall i | 0 <= i < |init| ensures two[i] == one[i] {}
  }

  /** Orders that end with m and a variable used to forge it, one way and the other, give different texts. */
  lemma {:induction false} SwapDiffers(s: string, init: seq<string>, u: string, m: string, vars: Vars)
    requires Plain(vars) && IsOrder(init + [u, m], vars) && IsOrder(init + [m, u], vars) && HasForgeWith(s, vars, m, u)
    ensures InOrder(s, init + [u, m], vars) != InOrder(s, init + [m, u], vars)
    decreases |init|
  {
    var one, two := init + [u, m], init + [m, u];
    if init == [] {
      assert one == [u, m] && two == [m, u];
      TwoLeft(s, u, m, vars);
      TwoLeft(s, m, u, vars);
      WithIsForge(s, vars, m, u);
      assert BraceFree(u) && BraceFree(vars[u]) && BraceFree(m) && BraceFree(vars[m]);
      TwoVariablesDiffer(s, u, vars[u], m, vars[m]);
    } else {
      var n := init[0];
      assert one[0] == n && two[0] == n && one[|init|] == u && one[|init| + 1] == m;
      assert one[1..] == init[1..] + [u, m] && two[1..] == init[1..] + [m, u];
      var rest := RestOfOrder(one, vars);
      var again := RestOfOrder(two, vars);
      OrderStep(s, one, vars, rest);
      OrderStep(s, two, vars, rest);
      WithStays(s, vars, rest, n, vars[n], m, u);
      SwapDiffers(Simultaneous(s, map[n := vars[n]]), init[1..], u, m, rest);
    }
  }

  ghost predicate OrdersAgree(s: string, vars: Vars) {
    forall o1, o2 :: IsOrder(o1, vars) && IsOrder(o2, vars) ==> InOrder(s, o1, vars) == InOrder(s, o2, vars)
  }

  /** Some two orders give different texts wherever a placeholder is forged. */
  lemma ForgingSeparatesOrders(s: string, vars: Vars) returns (one: seq<string>, two: seq<string>)
    requires Plain(vars) && HasForge(s, vars)
    ensures IsOrder(one, vars) && IsOrder(two, vars) && InOrder(s, one, vars) != InOrder(s, two, vars)
  {
    var m, u := ForgeWithSome(s, vars);
    WithIsForge(s, vars, m, u);
    var init := SomeOrder(vars.Keys - {m, u});
    one, two := init + [u, m], init + [m, u];
    SwappedOrder(init, u, m, vars);
    SwapDiffers(s, init, u, m, vars);
  }

  /**
   The result of substitution is the same for every iteration order of the map exactly when no position of the text
   forges a placeholder.
   */
  lemma OrderIndependentIff(s: string, vars: Vars)
    requires Plain(vars)
    ensures OrdersAgree(s, vars) <==> !HasForge(s, vars)
  {
    if HasForge(s, vars) {
      var one, two := ForgingSeparatesOrders(s, vars);
    } else {
      forall o1, o2 | IsOrder(o1, vars) && IsOrder(o2, vars) ensures InOrder(s, o1, vars) == InOrder(s, o2, vars) {
        EveryOrderAgrees(s, o1, vars);
        EveryOrderAgrees(s, o2, vars);
      }
    }
  }

  lemma NestedExpands(a: string, b: string, x: string)
    requires PairOf(a, b, b, x)
    ensures Expand(Placeholder(a) + "}", map[a := b, b := x]) == Expansion(b, {a})
    ensures AfterExpand(Placeholder(a) + "}", map[a := b, b := x]) == []
  {
    var t, vars := Placeholder(a) + "}", map[a := b, b := x];
    CloseAt(a, "}");
    assert t[1..|a| + 1] == a && t[|a| + 2..] == "}";
    assert Expand("}", vars) == Expansion("", {});
    assert {} + {a} == {a} && b + "" == b;
  }

  lemma NestedPieces(a: string, b: string, x: string)
    requires PairOf(a, b, b, x)
    ensures Pieces("{" + (Placeholder(a) + "}"), map[a := b, b := x]) == [Forged(b)]
  {
    var t, vars := Placeholder(a) + "}", map[a := b, b := x];
    NestedExpands(a, b, x);
    PairExtends(a, b, b, x);
    UsedNotVerbatim(t, vars);
    assert ("{" + t)[1..] == t;
  }

  /** The smallest case, a brace around a placeholder whose value names another variable. */
  lemma NestedPlaceholder(a: string, b: string, x: string)
    requires PairOf(a, b, b, x)
    ensures var s, vars := "{" + (Placeholder(a) + "}"), map[a := b, b := x];
            && IsOrder([a, b], vars) && IsOrder([b, a], vars)
            && InOrder(s, [a, b], vars) == x && InOrder(s, [b, a], vars) == Placeholder(b)
  {
    var s, vars := "{" + (Placeholder(a) + "}"), map[a := b, b := x];
    NestedPieces(a, b, x);
    PairExtends(a, b, b, x);
    PairSwapped(a, b, b, x);
    assert [Forged(b)][1..] == [];
    TwoSteps(s, a, b, b, x);
    TwoSteps(s, b, x, a, b);
    TwoLeft(s, a, b, vars);
    TwoLeft(s, b, a, vars);
  }

  lemma NestedPlaceholderDepends()
    ensures var vars := map["a" := "b", "b" := "x"];
            && Plain(vars) && IsOrder(["a", "b"], vars) && IsOrder(["b", "a"], vars)
            && InOrder("{{a}}", ["a", "b"], vars) == "x" && InOrder("{{a}}", ["b", "a"], vars) == "{b}"
  {
    NestedPlaceholder("a", "b", "x");
    assert "{" + (Placeholder("a") + "}") == "{{a}}" && Placeholder("b") == "{b}";
  }
}
