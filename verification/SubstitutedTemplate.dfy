/** Substitution of the texts people write: literal pieces with placeholders between them. */
module SubstitutedTemplate {
  import opened Substitution

  /** Literal pieces with a placeholder after each but the last. */
  function Template(pieces: seq<string>, names: seq<string>): string
    requires |pieces| == |names| + 1
  {
    if names == [] then pieces[0]
    else pieces[0] + ("{" + (names[0] + "}" + Template(pieces[1..], names[1..])))
  }

  /** The same pieces with the values in place; a name without a value stays as it was written. */
  function Filled(pieces: seq<string>, names: seq<string>, vars: Vars): string
    requires |pieces| == |names| + 1
  {
    if names == [] then pieces[0]
    else
      var rest := Filled(pieces[1..], names[1..], vars);
      pieces[0] + (if names[0] in vars then vars[names[0]] + rest else "{" + (names[0] + "}" + rest))
  }

  lemma OnePlaceholder(name: string, rest: string, vars: Vars)
    requires BraceFree(name)
    ensures var s := "{" + (name + "}" + rest);
            && Simultaneous(s, vars) == (if name in vars then vars[name] + Simultaneous(rest, vars)
                                         else "{" + (name + "}" + Simultaneous(rest, vars)))
            && (HasForge(s, vars) <==> HasForge(rest, vars))
  {
    var s := "{" + (name + "}" + rest);
    StartsVarAgain(name, rest, vars);
    NoOpenPassesThrough(name + "}", rest, vars);
    assert s[1..] == name + "}" + rest;
    if name !in vars {
      ExpandPastValue(name, "}" + rest, vars);
      assert name + ("}" + rest) == s[1..];
      assert Expand("}" + rest, vars) == Expansion("", {});
      assert name + "" == name;
    }
  }

  lemma {:induction false} FilledAtOnce(pieces: seq<string>, names: seq<string>, vars: Vars)
    requires |pieces| == |names| + 1
    requires (forall p :: p in pieces ==> NoOpen(p)) && forall n :: n in names ==> BraceFree(n)
    ensures Simultaneous(Template(pieces, names), vars) == Filled(pieces, names, vars)
    ensures !HasForge(Template(pieces, names), vars)
    decreases |names|
  {
    var first := pieces[0];
    assert first in pieces;
    if names == [] {
      NoOpenPassesThrough(first, "", vars);
      assert first + "" == first;
    } else {
      var rest := Template(pieces[1..], names[1..]);
      assert names[0] in names;
      FilledAtOnce(pieces[1..], names[1..], vars);
      OnePlaceholder(names[0], rest, vars);
      NoOpenPassesThrough(first, "{" + (names[0] + "}" + rest), vars);
    }
  }

  /**
   Whatever order the runner meets the variables in, literal text comes out as it is, every placeholder of a captured
   name as its value, and every other one as written.
   */
  lemma TemplateFilled(pieces: seq<string>, names: seq<string>, vars: Vars, order: seq<string>)
    requires |pieces| == |names| + 1
    requires (forall p :: p in pieces ==> NoOpen(p)) && forall n :: n in names ==> BraceFree(n)
    requires Plain(vars) && IsOrder(order, vars)
    ensures InOrder(Template(pieces, names), order, vars) == Filled(pieces, names, vars)
  {
    FilledAtOnce(pieces, names, vars);
    EveryOrderAgrees(Template(pieces, names), order, vars);
  }
}
