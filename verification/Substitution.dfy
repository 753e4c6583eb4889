/**
 {name} substitution by repeated replacement in arbitrary map order, measured against simultaneous substitution.
 */
module Substitution {
  type Vars = map<string, string>

  /** strings.ReplaceAll for a nonempty pattern: leftmost, non-overlapping, one pass. */
  function ReplaceAll(s: string, pattern: string, value: string): string
    requires pattern != []
    decreases |s|
  {
    if s == [] then []
    else if pattern <= s then value + ReplaceAll(s[|pattern|..], pattern, value)
    else [s[0]] + ReplaceAll(s[1..], pattern, value)
  }

  function Placeholder(name: string): string {
    "{" + name + "}"
  }

  /** The result for one iteration order of the map. */
  function InOrder(s: string, order: seq<string>, vars: Vars): string
    requires forall n :: n in order ==> n in vars
    decreases |order|
  {
    if order == [] then s
    else InOrder(ReplaceAll(s, Placeholder(order[0]), vars[order[0]]), order[1..], vars)
  }

  /** Each key exactly once. */
  ghost predicate IsOrder(order: seq<string>, vars: Vars) {
    && (forall n :: n in order <==> n in vars)
    && forall i, j :: 0 <= i < j < |order| ==> order[i] != order[j]
  }

  // ---- simultaneous substitution ----

  predicate NoOpen(s: string) {
    '{' !in s
  }

  predicate BraceFree(s: string) {
    '{' !in s && '}' !in s
  }

  /** Names cannot contain braces and captured values do not. */
  predicate Plain(vars: Vars) {
    forall n :: n in vars ==> BraceFree(n) && BraceFree(vars[n])
  }

  /** Index of the first closing brace, or the length. */
  function Close(s: string): (k: nat)
    ensures k <= |s|
    ensures forall i :: 0 <= i < k ==> s[i] != '}'
    ensures k < |s| ==> s[k] == '}'
  {
    if s == [] || s[0] == '}' then 0 else 1 + Close(s[1..])
  }

  /** s begins with the placeholder of a variable. */
  predicate StartsVar(s: string, vars: Vars) {
    s != [] && s[0] == '{' && Close(s) < |s| && s[1..Close(s)] in vars
  }

  function NameAt(s: string): string
    requires s != [] && s[0] == '{' && Close(s) < |s|
  {
    s[1..Close(s)]
  }

  function AfterVar(s: string): string
    requires Close(s) < |s|
  {
    s[Close(s) + 1..]
  }

  /** Every placeholder of the original text replaced once, replacements never re-read. */
  function Simultaneous(s: string, vars: Vars): string
    decreases |s|
  {
    if s == [] then []
    else if StartsVar(s, vars) then vars[NameAt(s)] + Simultaneous(AfterVar(s), vars)
    else [s[0]] + Simultaneous(s[1..], vars)
  }

  /**
   Reading on from an opening brace: the text up to its closing brace with the placeholders in between filled in, and
   the names of those placeholders. None when another opening brace or the end of the text comes first.
   */
  datatype Expansion = Unclosed | Expansion(name: string, used: set<string>)

  function Expand(t: string, vars: Vars): Expansion
    decreases |t|
  {
    if t == [] then Unclosed
    else if t[0] == '}' then Expansion("", {})
    else if StartsVar(t, vars) then
      match Expand(AfterVar(t), vars)
      case Unclosed => Unclosed
      case Expansion(m, used) => Expansion(vars[NameAt(t)] + m, used + {NameAt(t)})
    else if t[0] == '{' then Unclosed
    else
      match Expand(t[1..], vars)
      case Unclosed => Unclosed
      case Expansion(m, used) => Expansion([t[0]] + m, used)
  }

  /**
   Filling in what follows turns the literal opening brace at the start of s into the placeholder of a variable that
   was not itself used to fill in.
   */
  predicate Forges(s: string, vars: Vars) {
    && s != [] && s[0] == '{' && !StartsVar(s, vars)
    && var e := Expand(s[1..], vars); e.Expansion? && e.name in vars && e.name !in e.used
  }

  /** Some position of s forges a placeholder. */
  predicate HasForge(s: string, vars: Vars) {
    s != [] && (Forges(s, vars) || HasForge(s[1..], vars))
  }

  // ---- basic facts ----

  lemma CloseAt(name: string, rest: string)
    requires BraceFree(name)
    ensures Close("{" + name + "}" + rest) == |name| + 1
  {
    var s := "{" + name + "}" + rest;
    assert s[|name| + 1] == '}';
    forall i | 0 <= i <= |name| ensures s[i] != '}' {
      if i > 0 { assert s[i] == name[i - 1]; assert name[i - 1] in name; }
    }
  }

  lemma PlaceholderPrefixIff(s: string, name: string, value: string)
    requires BraceFree(name)
    ensures Placeholder(name) <= s <==> StartsVar(s, map[name := value])
    ensures Placeholder(name) <= s ==> NameAt(s) == name && AfterVar(s) == s[|name| + 2..]
  {
    if Placeholder(name) <= s {
      var rest := s[|name| + 2..];
      assert s == "{" + name + "}" + rest;
      CloseAt(name, rest);
      assert s[1..|name| + 1] == name;
    }
  }

  lemma {:induction false} ReplaceAllIsSimultaneous(s: string, name: string, value: string)
    requires BraceFree(name)
    ensures ReplaceAll(s, Placeholder(name), value) == Simultaneous(s, map[name := value])
    decreases |s|
  {
    if s != [] {
      PlaceholderPrefixIff(s, name, value);
      if Placeholder(name) <= s {
        ReplaceAllIsSimultaneous(s[|name| + 2..], name, value);
      } else {
        ReplaceAllIsSimultaneous(s[1..], name, value);
      }
    }
  }

  lemma {:induction false} NoOpenPassesThrough(w: string, t: string, vars: Vars)
    requires NoOpen(w)
    ensures Simultaneous(w + t, vars) == w + Simultaneous(t, vars)
    ensures HasForge(w + t, vars) <==> HasForge(t, vars)
  {
    if w == [] {
      assert w + t == t;
    } else {
      assert w[0] in w;
      assert (w + t)[1..] == w[1..] + t;
      NoOpenPassesThrough(w[1..], t, vars);
      assert w == [w[0]] + w[1..];
    }
  }

  lemma {:induction false} NothingToSubstitute(s: string)
    ensures Simultaneous(s, map[]) == s
  {
    if s != [] { NothingToSubstitute(s[1..]); }
  }

  /** The text of a placeholder, taken apart. */
  lemma VarText(s: string, vars: Vars)
    requires StartsVar(s, vars) && Plain(vars)
    ensures BraceFree(NameAt(s)) && NoOpen(NameAt(s) + "}")
    ensures s == "{" + (NameAt(s) + "}" + AfterVar(s)) && s[1..] == NameAt(s) + "}" + AfterVar(s)
  {
  }

  lemma StartsVarAgain(name: string, rest: string, vars: Vars)
    requires BraceFree(name)
    ensures StartsVar("{" + (name + "}" + rest), vars) <==> name in vars
    ensures var s := "{" + (name + "}" + rest); Close(s) < |s| && NameAt(s) == name && AfterVar(s) == rest
  {
    var s := "{" + (name + "}" + rest);
    assert s == "{" + name + "}" + rest;
    CloseAt(name, rest);
    assert s[1..|name| + 1] == name;
    assert s[|name| + 2..] == rest;
  }

  // ---- replacing one variable first ----

  /** all is rest together with one more variable n. */
  ghost predicate Extends(all: Vars, rest: Vars, n: string, v: string) {
    n !in rest && all == rest[n := v] && Plain(rest) && BraceFree(n) && BraceFree(v)
  }

  lemma StartsVarSplit(s: string, all: Vars, rest: Vars, n: string, v: string)
    requires Extends(all, rest, n, v)
    ensures StartsVar(s, all) <==> StartsVar(s, rest) || StartsVar(s, map[n := v])
    ensures StartsVar(s, map[n := v]) ==> NameAt(s) == n && !StartsVar(s, rest)
  {
  }

  /** Replacing n leaves the placeholders of the other variables as they are. */
  lemma OtherVarSurvives(s: string, all: Vars, rest: Vars, n: string, v: string)
    requires Extends(all, rest, n, v) && StartsVar(s, rest)
    ensures var s' := Simultaneous(s, map[n := v]);
            && s' == "{" + (NameAt(s) + "}" + Simultaneous(AfterVar(s), map[n := v]))
            && StartsVar(s', rest) && NameAt(s') == NameAt(s)
            && AfterVar(s') == Simultaneous(AfterVar(s), map[n := v])
  {
    VarText(s, rest);
    StartsVarSplit(s, all, rest, n, v);
    assert NameAt(s) != n;
    NoOpenPassesThrough(NameAt(s) + "}", AfterVar(s), map[n := v]);
    StartsVarAgain(NameAt(s), Simultaneous(AfterVar(s), map[n := v]), rest);
  }

  /** A brace-free front v of m} is a front of m. */
  lemma CancelFront(v: string, tail: string, m: string, x: string)
    requires '}' !in v && BraceFree(m) && v + tail == m + "}" + x
    ensures |v| <= |m| && m == v + m[|v|..] && tail == m[|v|..] + "}" + x && BraceFree(m[|v|..])
  {
    var whole := v + tail;
    assert whole[|m|] == '}';
    assert forall i :: 0 <= i < |v| ==> whole[i] == v[i] && v[i] in v;
    assert whole[..|v|] == v && whole[|v|..] == tail;
  }

  lemma FrontIsEmpty(m: string, x: string)
    requires BraceFree(m) && (m + "}" + x)[0] == '}'
    ensures m == []
  {
    assert forall i :: 0 <= i < |m| ==> m[i] in m;
  }

  /**
   If replacing n in t leaves m and a closing brace at the front, then reading on in t itself expands to m using no
   other variable than n; and what follows the brace is the replaced remainder.
   */
  lemma {:induction false} FrontAfterReplace(t: string, all: Vars, rest: Vars,
                                             n: string, v: string, m: string, x: string)
      returns (u: string)
    requires Extends(all, rest, n, v) && BraceFree(m)
    requires Simultaneous(t, map[n := v]) == m + "}" + x
    ensures var e := Expand(t, all); e.Expansion? && e.name == m && e.used <= {n}
    ensures x == Simultaneous(u, map[n := v]) && |u| < |t|
    decreases |t|
  {
    StartsVarSplit(t, all, rest, n, v);
    assert Simultaneous(t, map[n := v])[|m|] == '}';
    if StartsVar(t, map[n := v]) {
      CancelFront(v, Simultaneous(AfterVar(t), map[n := v]), m, x);
      u := FrontAfterReplace(AfterVar(t), all, rest, n, v, m[|v|..], x);
    } else if t[0] == '}' {
      FrontIsEmpty(m, x);
      u := t[1..];
      assert Simultaneous(t, map[n := v])[1..] == x;
    } else {
      CancelFront([t[0]], Simultaneous(t[1..], map[n := v]), m, x);
      assert m[0] in m;
      u := FrontAfterReplace(t[1..], all, rest, n, v, m[1..], x);
    }
  }

  /** At a literal opening brace, replacing n produces a placeholder of another variable only by forging it. */
  lemma NewVarIsForged(s: string, all: Vars, rest: Vars, n: string, v: string)
    requires Extends(all, rest, n, v)
    requires s != [] && s[0] == '{' && !StartsVar(s, all)
    requires StartsVar(Simultaneous(s, map[n := v]), rest)
    ensures Forges(s, all)
  {
    StartsVarSplit(s, all, rest, n, v);
    var t, s' := s[1..], Simultaneous(s, map[n := v]);
    var t' := Simultaneous(t, map[n := v]);
    assert s' == ['{'] + t';
    VarText(s', rest);
    assert t' == NameAt(s') + "}" + AfterVar(s');
    var _ := FrontAfterReplace(t, all, rest, n, v, NameAt(s'), AfterVar(s'));
  }

  /** Without forging, replacing n first and the others afterwards is replacing all at once. */
  lemma {:induction false} ReplaceFirst(s: string, all: Vars, rest: Vars, n: string, v: string)
    requires Extends(all, rest, n, v) && !HasForge(s, all)
    ensures Simultaneous(Simultaneous(s, map[n := v]), rest) == Simultaneous(s, all)
    decreases |s|
  {
    if s != [] {
      StartsVarSplit(s, all, rest, n, v);
      if StartsVar(s, map[n := v]) {
        VarTail(s, all);
        NoOpenPassesThrough(v, Simultaneous(AfterVar(s), map[n := v]), rest);
        ReplaceFirst(AfterVar(s), all, rest, n, v);
      } else if StartsVar(s, rest) {
        VarTail(s, all);
        OtherVarSurvives(s, all, rest, n, v);
        ReplaceFirst(AfterVar(s), all, rest, n, v);
      } else {
        if s[0] == '{' && StartsVar(Simultaneous(s, map[n := v]), rest) {
          NewVarIsForged(s, all, rest, n, v);
        }
        ReplaceFirst(s[1..], all, rest, n, v);
      }
    }
  }

  /** Forging after a placeholder is forging in the whole text. */
  lemma VarTail(s: string, vars: Vars)
    requires StartsVar(s, vars) && Plain(vars)
    ensures HasForge(AfterVar(s), vars) <==> HasForge(s, vars)
  {
    VarText(s, vars);
    NoOpenPassesThrough(NameAt(s) + "}", AfterVar(s), vars);
  }

  lemma {:induction false} ExpandPastValue(w: string, t: string, vars: Vars)
    requires BraceFree(w)
    ensures var e := Expand(t, vars);
            Expand(w + t, vars) == if e.Expansion? then Expansion(w + e.name, e.used) else Unclosed
  {
    if w == [] {
      assert w + t == t;
    } else {
      assert w[0] in w;
      assert (w + t)[1..] == w[1..] + t;
      ExpandPastValue(w[1..], t, vars);
      assert w == [w[0]] + w[1..];
      assert Expand(t, vars).Expansion? ==>
          [w[0]] + (w[1..] + Expand(t, vars).name) == w + Expand(t, vars).name;
    }
  }

  lemma LiteralStaysUnclosed(t: string, all: Vars, rest: Vars, n: string, v: string)
    requires Extends(all, rest, n, v)
    requires t != [] && t[0] == '{' && !StartsVar(t, all)
    ensures Expand(t, all) == Unclosed
    ensures !HasForge(t, all) ==> Expand(Simultaneous(t, map[n := v]), rest) == Unclosed
  {
    StartsVarSplit(t, all, rest, n, v);
    if StartsVar(Simultaneous(t, map[n := v]), rest) {
      NewVarIsForged(t, all, rest, n, v);
    }
  }

  /** Replacing n does not change what reading on expands to, only who is left to fill in. */
  ghost predicate ExpandsAlike(t: string, all: Vars, rest: Vars, n: string, v: string) {
    var e, e' := Expand(t, all), Expand(Simultaneous(t, map[n := v]), rest);
    && (e.Expansion? ==> e' == Expansion(e.name, e.used - {n}))
    && (e'.Expansion? && !HasForge(t, all) ==> e.Expansion?)
  }

  lemma ExpandsAlikeAtOwn(t: string, all: Vars, rest: Vars, n: string, v: string)
    requires Extends(all, rest, n, v) && StartsVar(t, map[n := v])
    requires ExpandsAlike(AfterVar(t), all, rest, n, v)
    ensures ExpandsAlike(t, all, rest, n, v)
  {
    StartsVarSplit(t, all, rest, n, v);
    VarTail(t, all);
    ExpandPastValue(v, Simultaneous(AfterVar(t), map[n := v]), rest);
    var e := Expand(AfterVar(t), all);
    if e.Expansion? {
      assert e.used + {n} - {n} == e.used - {n};
    }
  }

  lemma ExpandsAlikeAtOther(t: string, all: Vars, rest: Vars, n: string, v: string)
    requires Extends(all, rest, n, v) && StartsVar(t, rest)
    requires ExpandsAlike(AfterVar(t), all, rest, n, v)
    ensures ExpandsAlike(t, all, rest, n, v)
  {
    StartsVarSplit(t, all, rest, n, v);
    VarTail(t, all);
    OtherVarSurvives(t, all, rest, n, v);
    var e, name := Expand(AfterVar(t), all), NameAt(t);
    if e.Expansion? {
      assert e.used + {name} - {n} == (e.used - {n}) + {name};
    }
  }

  lemma {:induction false} ExpandAfterReplace(t: string, all: Vars, rest: Vars, n: string, v: string)
    requires Extends(all, rest, n, v)
    ensures ExpandsAlike(t, all, rest, n, v)
    decreases |t|
  {
    if t != [] {
      StartsVarSplit(t, all, rest, n, v);
      if StartsVar(t, map[n := v]) {
        ExpandAfterReplace(AfterVar(t), all, rest, n, v);
        ExpandsAlikeAtOwn(t, all, rest, n, v);
      } else if StartsVar(t, rest) {
        ExpandAfterReplace(AfterVar(t), all, rest, n, v);
        ExpandsAlikeAtOther(t, all, rest, n, v);
      } else if t[0] == '{' {
        LiteralStaysUnclosed(t, all, rest, n, v);
      } else {
        ExpandAfterReplace(t[1..], all, rest, n, v);
      }
    } else {
      assert {} - {n} == {};
    }
  }

  /** Replacing n forges nothing new. */
  lemma {:induction false} NoForgeAfterReplace(s: string, all: Vars, rest: Vars, n: string, v: string)
    requires Extends(all, rest, n, v) && !HasForge(s, all)
    ensures !HasForge(Simultaneous(s, map[n := v]), rest)
    decreases |s|
  {
    if s != [] {
      StartsVarSplit(s, all, rest, n, v);
      if StartsVar(s, map[n := v]) {
        VarTail(s, all);
        NoOpenPassesThrough(v, Simultaneous(AfterVar(s), map[n := v]), rest);
        NoForgeAfterReplace(AfterVar(s), all, rest, n, v);
      } else if StartsVar(s, rest) {
        VarTail(s, all);
        OtherVarSurvives(s, all, rest, n, v);
        VarTail(Simultaneous(s, map[n := v]), rest);
        NoForgeAfterReplace(AfterVar(s), all, rest, n, v);
      } else {
        ExpandAfterReplace(s[1..], all, rest, n, v);
        NoForgeAfterReplace(s[1..], all, rest, n, v);
      }
    }
  }

  lemma RestOfOrder(order: seq<string>, vars: Vars) returns (rest: Vars)
    requires order != [] && IsOrder(order, vars) && Plain(vars)
    ensures rest == map k | k in vars && k != order[0] :: vars[k]
    ensures Extends(vars, rest, order[0], vars[order[0]]) && IsOrder(order[1..], rest)
  {
    var n := order[0];
    rest := map k | k in vars && k != n :: vars[k];
    assert vars == rest[n := vars[n]];
    forall k ensures k in order[1..] <==> k in rest {
      if k in rest {
        var i :| 0 <= i < |order| && order[i] == k;
        assert order[1..][i - 1] == k;
      }
    }
  }

  lemma {:induction false} InOrderIgnoresRest(s: string, order: seq<string>, vars: Vars, rest: Vars)
    requires forall n :: n in order ==> n in vars && n in rest && vars[n] == rest[n]
    ensures InOrder(s, order, vars) == InOrder(s, order, rest)
    decreases |order|
  {
    if order != [] {
      InOrderIgnoresRest(ReplaceAll(s, Placeholder(order[0]), vars[order[0]]), order[1..], vars, rest);
    }
  }

  lemma OrderStep(s: string, order: seq<string>, vars: Vars, rest: Vars)
    requires order != [] && IsOrder(order, vars) && Extends(vars, rest, order[0], vars[order[0]])
    requires IsOrder(order[1..], rest)
    ensures InOrder(s, order, vars) == InOrder(Simultaneous(s, map[order[0] := vars[order[0]]]), order[1..], rest)
  {
    ReplaceAllIsSimultaneous(s, order[0], vars[order[0]]);
    InOrderIgnoresRest(ReplaceAll(s, Placeholder(order[0]), vars[order[0]]), order[1..], vars, rest);
  }

  /** Without forging, every iteration order of the map yields the simultaneous substitution. */
  lemma {:induction false} EveryOrderAgrees(s: string, order: seq<string>, vars: Vars)
    requires Plain(vars) && IsOrder(order, vars) && !HasForge(s, vars)
    ensures InOrder(s, order, vars) == Simultaneous(s, vars)
    decreases |order|
  {
    if order == [] {
      assert vars == map[];
      NothingToSubstitute(s);
    } else {
      var n := order[0];
      var rest := RestOfOrder(order, vars);
      OrderStep(s, order, vars, rest);
      ReplaceFirst(s, vars, rest, n, vars[n]);
      NoForgeAfterReplace(s, vars, rest, n, vars[n]);
      EveryOrderAgrees(Simultaneous(s, map[n := vars[n]]), order[1..], rest);
    }
  }

  /** The runner's loop: the map yields its keys in some order. */
  method SubstituteVars(s: string, vars: Vars) returns (r: string)
    ensures exists order :: IsOrder(order, vars) && r == InOrder(s, order, vars)
    ensures Plain(vars) && !HasForge(s, vars) ==> r == Simultaneous(s, vars)
  {
    r := s;
    var todo := vars.Keys;
    ghost var order: seq<string> := [];
    while todo != {}
      invariant todo <= vars.Keys
      invariant forall n :: n in order <==> n in vars && n !in todo
      invariant forall i, j :: 0 <= i < j < |order| ==> order[i] != order[j]
      invariant r == InOrder(s, order, vars)
      decreases todo
    {
      var name :| name in todo;
      InOrderSnoc(s, order, name, vars);
      r := ReplaceAll(r, Placeholder(name), vars[name]);
      order := order + [name];
      todo := todo - {name};
    }
    assert IsOrder(order, vars);
    if Plain(vars) && !HasForge(s, vars) {
      EveryOrderAgrees(s, order, vars);
    }
  }

  lemma {:induction false} InOrderSnoc(s: string, order: seq<string>, name: string, vars: Vars)
    requires name in vars && forall n :: n in order ==> n in vars
    ensures InOrder(s, order + [name], vars) == ReplaceAll(InOrder(s, order, vars), Placeholder(name), vars[name])
    decreases |order|
  {
    if order != [] {
      assert (order + [name])[1..] == order[1..] + [name];
      InOrderSnoc(ReplaceAll(s, Placeholder(order[0]), vars[order[0]]), order[1..], name, vars);
    }
  }

  /** A text in which no brace opens before the previous one closed forges nothing. */
  ghost predicate Flat(s: string) {
    forall i, j :: 0 <= i < j < |s| && s[i] == '{' && s[j] == '{' ==> '}' in s[i..j]
  }

  lemma {:induction false} ExpandVerbatim(t: string, vars: Vars)
    ensures var e := Expand(t, vars);
            e.Expansion? && e.used == {} ==> Close(t) < |t| && e.name == t[..Close(t)] && NoOpen(e.name)
    decreases |t|
  {
    if t != [] && t[0] != '}' && !StartsVar(t, vars) && t[0] != '{' {
      ExpandVerbatim(t[1..], vars);
      var k := Close(t[1..]);
      assert k < |t| - 1 ==> t[..k + 1] == [t[0]] + t[1..][..k];
    }
  }

  /** Nothing to fill in up to the closing brace: a literal brace is then literal for good. */
  lemma ForgingUsesOthers(s: string, vars: Vars)
    requires Forges(s, vars)
    ensures Expand(s[1..], vars).used != {}
  {
    var t := s[1..];
    ExpandVerbatim(t, vars);
    assert Close(s) == Close(t) + 1;
    assert s[1..Close(t) + 1] == t[..Close(t)];
  }

  lemma {:induction false} UsedMeansNested(t: string, vars: Vars)
    ensures var e := Expand(t, vars);
            e.Expansion? && e.used != {} ==> exists j :: 0 <= j < |t| && t[j] == '{' && '}' !in t[..j]
    decreases |t|
  {
    if t != [] && t[0] != '}' {
      if StartsVar(t, vars) {
        assert t[0] == '{' && '}' !in t[..0];
      } else if t[0] != '{' {
        UsedMeansNested(t[1..], vars);
        var e := Expand(t, vars);
        if e.Expansion? && e.used != {} {
          var j :| 0 <= j < |t[1..]| && t[1..][j] == '{' && '}' !in t[1..][..j];
          assert t[..j + 1] == [t[0]] + t[1..][..j];
        }
      }
    }
  }

  lemma UsedIsNested(s: string, vars: Vars)
    requires s != [] && s[0] == '{' && Expand(s[1..], vars).Expansion? && Expand(s[1..], vars).used != {}
    ensures !Flat(s)
  {
    UsedMeansNested(s[1..], vars);
    var j :| 0 <= j < |s[1..]| && s[1..][j] == '{' && '}' !in s[1..][..j];
    assert s[0..j + 1] == [s[0]] + s[1..][..j];
    assert s[j + 1] == '{';
  }

  lemma ForgeIsNested(s: string, vars: Vars)
    requires Forges(s, vars)
    ensures !Flat(s)
  {
    ForgingUsesOthers(s, vars);
    UsedIsNested(s, vars);
  }

  lemma {:induction false} FlatTextNeverForges(s: string, vars: Vars)
    requires Flat(s)
    ensures !HasForge(s, vars)
  {
    if s != [] {
      assert forall i, j :: 0 <= i < j < |s[1..]| ==> s[1..][i..j] == s[i + 1..j + 1];
      FlatTextNeverForges(s[1..], vars);
      if Forges(s, vars) {
        ForgeIsNested(s, vars);
      }
    }
  }
}
