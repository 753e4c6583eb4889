/** What a substituted text still refers to, by the same pattern the linter extracts references with. */
module SubstitutedText {
  import opened Substitution

  /** [a-zA-Z_][a-zA-Z0-9_]* */
  predicate IsIdentifier(name: string) {
    name != [] && !('0' <= name[0] <= '9') && forall c :: c in name ==> IsIdentifierChar(c)
  }

  predicate IsIdentifierChar(c: char) {
    'a' <= c <= 'z' || 'A' <= c <= 'Z' || '0' <= c <= '9' || c == '_'
  }

  /** A character code that may open an identifier: an ASCII letter or the underscore. */
  predicate OpensIdentifier(code: int) {
    97 <= code <= 122 || 65 <= code <= 90 || code == 95
  }

  /** The pattern by character codes: only digits may follow but not open. */
  lemma IdentifierIff(name: string)
    ensures IsIdentifier(name) <==>
        name != "" && OpensIdentifier(name[0] as int) && forall i :: 0 < i < |name| ==> InIdentifier(name[i] as int)
  {
    if IsIdentifier(name) {
      forall i | 0 < i < |name| ensures InIdentifier(name[i] as int) {
        assert name[i] in name;
        CharIff(name[i]);
      }
      assert name[0] in name;
      CharIff(name[0]);
    }
    if name != "" && OpensIdentifier(name[0] as int) && forall i :: 0 < i < |name| ==> InIdentifier(name[i] as int) {
      CharIff(name[0]);
      forall c | c in name ensures IsIdentifierChar(c) {
        var i :| 0 <= i < |name| && name[i] == c;
        CharIff(name[i]);
      }
    }
  }

  lemma CharIff(c: char)
    ensures IsIdentifierChar(c) <==> InIdentifier(c as int)
    ensures '0' <= c <= '9' <==> 48 <= c as int <= 57
  {
  }

  predicate InIdentifier(code: int) {
    OpensIdentifier(code) || 48 <= code <= 57
  }

  /** s begins with a match of the reference pattern. */
  predicate StartsRef(s: string) {
    s != [] && s[0] == '{' && Close(s) < |s| && IsIdentifier(NameAt(s))
  }

  /** extractVarRefs: the names of the leftmost non-overlapping matches. */
  function ExtractVarRefs(s: string): seq<string>
    decreases |s|
  {
    if s == [] then []
    else if StartsRef(s) then [NameAt(s)] + ExtractVarRefs(AfterVar(s))
    else ExtractVarRefs(s[1..])
  }

  /** Filling in the text after the literal brace at the start of s spells an identifier and closes it. */
  predicate Spells(s: string, vars: Vars) {
    && s != [] && s[0] == '{' && !StartsVar(s, vars)
    && Expand(s[1..], vars).Expansion? && IsIdentifier(Expand(s[1..], vars).name)
  }

  predicate HasSpelling(s: string, vars: Vars) {
    s != [] && (Spells(s, vars) || HasSpelling(s[1..], vars))
  }

  lemma IdentifierBraceFree(name: string)
    requires IsIdentifier(name)
    ensures BraceFree(name)
  {
  }

  lemma {:induction false} SkipNoOpen(w: string, t: string, vars: Vars)
    requires NoOpen(w)
    ensures ExtractVarRefs(w + t) == ExtractVarRefs(t)
    ensures HasSpelling(w + t, vars) <==> HasSpelling(t, vars)
  {
    if w == [] {
      assert w + t == t;
    } else {
      assert w[0] in w;
      assert (w + t)[1..] == w[1..] + t;
      SkipNoOpen(w[1..], t, vars);
    }
  }

  lemma {:induction false} ClosePastValue(w: string, r: string)
    requires '}' !in w
    ensures Close(w + r) == |w| + Close(r) && (w + r)[..Close(w + r)] == w + r[..Close(r)]
  {
    if w == [] {
      assert w + r == r;
    } else {
      assert w[0] in w && (w + r)[1..] == w[1..] + r;
      ClosePastValue(w[1..], r);
    }
  }

  /** What reading on expands to is what the substituted text holds before its first closing brace. */
  lemma {:induction false} ExpandIsFront(t: string, vars: Vars)
    requires Plain(vars)
    ensures var e, r := Expand(t, vars), Simultaneous(t, vars);
            && (e.Expansion? <==> Close(r) < |r| && '{' !in r[..Close(r)])
            && (e.Expansion? ==> e.name == r[..Close(r)])
    decreases |t|
  {
    if t != [] {
      if StartsVar(t, vars) {
        ExpandIsFront(AfterVar(t), vars);
        ClosePastValue(vars[NameAt(t)], Simultaneous(AfterVar(t), vars));
      } else if t[0] == '{' {
        assert Simultaneous(t, vars)[0] == '{';
      } else if t[0] != '}' {
        ExpandIsFront(t[1..], vars);
        ClosePastValue([t[0]], Simultaneous(t[1..], vars));
      }
    }
  }

  lemma BraceBefore(r: string)
    ensures StartsRef("{" + r) <==> Close(r) < |r| && IsIdentifier(r[..Close(r)])
  {
    ClosePastValue("{", r);
    assert ("{" + r)[1..Close(r) + 1] == r[..Close(r)];
  }

  lemma SpellsIff(s: string, vars: Vars)
    requires Plain(vars) && s != [] && s[0] == '{' && !StartsVar(s, vars)
    ensures Spells(s, vars) <==> StartsRef(Simultaneous(s, vars))
  {
    var r := Simultaneous(s[1..], vars);
    ExpandIsFront(s[1..], vars);
    BraceBefore(r);
    if StartsRef("{" + r) {
      IdentifierBraceFree(r[..Close(r)]);
    }
  }

  /**
   The result of substituting all at once refers to no identifier at all exactly when no literal brace of the text
   comes to spell one.
   */
  lemma {:induction false} NoRefsLeftIff(s: string, vars: Vars)
    requires Plain(vars)
    ensures ExtractVarRefs(Simultaneous(s, vars)) == [] <==> !HasSpelling(s, vars)
    decreases |s|
  {
    if s != [] {
      var r := Simultaneous(s, vars);
      if StartsVar(s, vars) {
        VarText(s, vars);
        SkipNoOpen(NameAt(s) + "}", AfterVar(s), vars);
        SkipNoOpen(vars[NameAt(s)], Simultaneous(AfterVar(s), vars), vars);
        NoRefsLeftIff(AfterVar(s), vars);
      } else {
        NoRefsLeftIff(s[1..], vars);
        assert r[1..] == Simultaneous(s[1..], vars);
        if s[0] == '{' {
          SpellsIff(s, vars);
        }
      }
    }
  }

  // ---- texts whose references are all bound ----

  ghost predicate RefsBound(s: string, vars: Vars) {
    forall name :: name in ExtractVarRefs(s) ==> name in vars
  }

  lemma RefsBoundTail(s: string, vars: Vars)
    requires s != [] && RefsBound(s, vars)
    ensures RefsBound(s[1..], vars)
  {
    if StartsRef(s) {
      IdentifierBraceFree(NameAt(s));
      assert s[1..] == (NameAt(s) + "}") + AfterVar(s);
      SkipNoOpen(NameAt(s) + "}", AfterVar(s), vars);
    }
  }

  /** In flat text a brace spells only the name written after it. */
  lemma FlatSpellsVerbatim(s: string, vars: Vars)
    requires Flat(s) && Spells(s, vars)
    ensures StartsRef(s)
  {
    var t := s[1..];
    if Expand(t, vars).used != {} {
      UsedIsNested(s, vars);
    } else {
      ExpandVerbatim(t, vars);
      assert s == "{" + t;
      BraceBefore(t);
    }
  }

  lemma {:induction false} FlatBoundSpellsNothing(s: string, vars: Vars)
    requires Flat(s) && RefsBound(s, vars)
    ensures !HasSpelling(s, vars)
  {
    if s != [] {
      assert forall i, j :: 0 <= i < j < |s[1..]| ==> s[1..][i..j] == s[i + 1..j + 1];
      RefsBoundTail(s, vars);
      FlatBoundSpellsNothing(s[1..], vars);
      assert StartsRef(s) ==> NameAt(s) in ExtractVarRefs(s);
      if Spells(s, vars) {
        FlatSpellsVerbatim(s, vars);
      }
    }
  }

  /** Without forging, what is left to refer is what literal braces spell. */
  lemma UnforgedTextRefers(s: string, order: seq<string>, vars: Vars)
    requires Plain(vars) && IsOrder(order, vars) && !HasForge(s, vars)
    ensures InOrder(s, order, vars) == Simultaneous(s, vars)
    ensures ExtractVarRefs(InOrder(s, order, vars)) == [] <==> !HasSpelling(s, vars)
  {
    EveryOrderAgrees(s, order, vars);
    NoRefsLeftIff(s, vars);
  }

  /** Where no brace opens inside another: a special case of texts that are not nested, for names of any kind. */
  lemma FlatTextIsClean(s: string, order: seq<string>, vars: Vars)
    requires Plain(vars) && IsOrder(order, vars) && Flat(s) && RefsBound(s, vars)
    ensures InOrder(s, order, vars) == Simultaneous(s, vars) && ExtractVarRefs(InOrder(s, order, vars)) == []
  {
    FlatTextNeverForges(s, vars);
    FlatBoundSpellsNothing(s, vars);
    UnforgedTextRefers(s, order, vars);
  }

  // ---- texts without nested references ----

  ghost predicate IdentifierKeys(vars: Vars) {
    forall name :: name in vars ==> IsIdentifier(name)
  }

  /**
   Reading on: a character no identifier holds comes before the closing brace, or the brace comes without a reference
   on the way, or not at all. nested: whether a reference was passed already.
   */
  predicate SafeStretch(t: string, nested: bool)
    decreases |t|
  {
    if t == [] then true
    else if t[0] == '}' then !nested
    else if StartsRef(t) then SafeStretch(AfterVar(t), true)
    else !IsIdentifierChar(t[0]) || SafeStretch(t[1..], nested)
  }

  predicate SafeAfterBrace(t: string) {
    (t != [] && '0' <= t[0] <= '9') || SafeStretch(t, false)
  }

  /** No literal brace has a reference among identifier characters up to its closing brace. */
  predicate Unnested(s: string) {
    s == [] || ((s[0] == '{' && !StartsRef(s) ==> SafeAfterBrace(s[1..])) && Unnested(s[1..]))
  }

  ghost predicate IdentifierChars(name: string) {
    forall c :: c in name ==> IsIdentifierChar(c)
  }

  lemma {:induction false} SafeSpellsVerbatim(t: string, nested: bool, vars: Vars)
    requires IdentifierKeys(vars) && SafeStretch(t, nested)
    requires Expand(t, vars).Expansion? && IdentifierChars(Expand(t, vars).name)
    ensures !nested && Expand(t, vars).used == {}
    decreases |t|
  {
    if t[0] != '}' {
      if StartsVar(t, vars) {
        assert IdentifierChars(Expand(AfterVar(t), vars).name) by {
          assert forall c :: c in Expand(AfterVar(t), vars).name ==> c in Expand(t, vars).name;
        }
        SafeSpellsVerbatim(AfterVar(t), true, vars);
      } else {
        assert t[0] in Expand(t, vars).name;
        assert forall c :: c in Expand(t[1..], vars).name ==> c in Expand(t, vars).name;
        SafeSpellsVerbatim(t[1..], nested, vars);
      }
    }
  }

  lemma DigitFirst(t: string, vars: Vars)
    requires t != [] && '0' <= t[0] <= '9' && Expand(t, vars).Expansion?
    ensures !IsIdentifier(Expand(t, vars).name)
  {
    assert Expand(t, vars).name[0] == t[0];
  }

  /** A safe literal brace spells only the reference written after it. */
  lemma SafeBraceSpells(s: string, vars: Vars)
    requires IdentifierKeys(vars) && Spells(s, vars) && (StartsRef(s) || SafeAfterBrace(s[1..]))
    ensures StartsRef(s)
  {
    var t := s[1..];
    if !StartsRef(s) {
      if t != [] && '0' <= t[0] <= '9' {
        DigitFirst(t, vars);
      } else {
        SafeSpellsVerbatim(t, false, vars);
        ExpandVerbatim(t, vars);
        assert s == "{" + t;
        BraceBefore(t);
      }
    }
  }

  lemma {:induction false} UnnestedSpellsNothing(s: string, vars: Vars)
    requires IdentifierKeys(vars) && Unnested(s) && RefsBound(s, vars)
    ensures !HasSpelling(s, vars)
  {
    if s != [] {
      RefsBoundTail(s, vars);
      UnnestedSpellsNothing(s[1..], vars);
      assert StartsRef(s) ==> NameAt(s) in ExtractVarRefs(s);
      if Spells(s, vars) {
        SafeBraceSpells(s, vars);
      }
    }
  }

  /** A forged placeholder of an identifier is spelled. */
  lemma {:induction false} ForgeIsSpelled(s: string, vars: Vars)
    requires IdentifierKeys(vars) && HasForge(s, vars)
    ensures HasSpelling(s, vars)
  {
    if !Forges(s, vars) {
      ForgeIsSpelled(s[1..], vars);
    }
  }

  /** An unsafe stretch becomes an identifier when every reference in it is filled in with one letter. */
  lemma {:induction false} UnsafeStretchSpells(t: string, nested: bool, vars: Vars)
    requires IdentifierKeys(vars) && RefsBound(t, vars) && !SafeStretch(t, nested)
    requires forall name :: name in vars ==> vars[name] == "a"
    ensures var e := Expand(t, vars);
            && e.Expansion? && IdentifierChars(e.name)
            && (!nested ==> e.name != [])
            && (e.name != [] ==> e.name[0] == t[0] || e.name[0] == 'a')
    decreases |t|
  {
    if t[0] != '}' {
      if StartsRef(t) {
        assert NameAt(t) in ExtractVarRefs(t);
        assert forall name :: name in ExtractVarRefs(AfterVar(t)) ==> name in ExtractVarRefs(t);
        UnsafeStretchSpells(AfterVar(t), true, vars);
      } else {
        RefsBoundTail(t, vars);
        UnsafeStretchSpells(t[1..], nested, vars);
      }
    }
  }

  lemma {:induction false} NestedSpells(s: string, vars: Vars)
    requires IdentifierKeys(vars) && RefsBound(s, vars) && !Unnested(s)
    requires forall name :: name in vars ==> vars[name] == "a"
    ensures HasSpelling(s, vars)
  {
    RefsBoundTail(s, vars);
    if s[0] == '{' && !StartsRef(s) && !SafeAfterBrace(s[1..]) {
      UnsafeStretchSpells(s[1..], false, vars);
      assert IsIdentifier(Expand(s[1..], vars).name);
    } else {
      NestedSpells(s[1..], vars);
    }
  }

  /**
   A text is not nested exactly when no brace-free values for its references ever make it refer to anything further.
   */
  lemma UnnestedIff(s: string)
    ensures Unnested(s) <==>
        forall vars: Vars :: Plain(vars) && IdentifierKeys(vars) && RefsBound(s, vars) ==> !HasSpelling(s, vars)
  {
    if Unnested(s) {
      forall vars: Vars | Plain(vars) && IdentifierKeys(vars) && RefsBound(s, vars) ensures !HasSpelling(s, vars) {
        UnnestedSpellsNothing(s, vars);
      }
    } else {
      var vars := map name | name in ExtractVarRefs(s) :: "a";
      RefsAreIdentifiers(s);
      forall name | name in vars ensures BraceFree(name) && BraceFree(vars[name]) {
        IdentifierBraceFree(name);
      }
      NestedSpells(s, vars);
    }
  }

  lemma {:induction false} RefsAreIdentifiers(s: string)
    ensures forall name :: name in ExtractVarRefs(s) ==> IsIdentifier(name)
    decreases |s|
  {
    if s != [] {
      if StartsRef(s) { RefsAreIdentifiers(AfterVar(s)); } else { RefsAreIdentifiers(s[1..]); }
    }
  }

  /**
   Where no reference is nested and every reference is bound to a brace-free value, every iteration order of the map
   gives the same text, and nothing in it reads as a reference any more.
   */
  lemma BoundTextIsClean(s: string, order: seq<string>, vars: Vars)
    requires Plain(vars) && IdentifierKeys(vars) && IsOrder(order, vars) && Unnested(s) && RefsBound(s, vars)
    ensures !HasForge(s, vars)
    ensures InOrder(s, order, vars) == Simultaneous(s, vars) && ExtractVarRefs(InOrder(s, order, vars)) == []
  {
    UnnestedSpellsNothing(s, vars);
    if HasForge(s, vars) {
      ForgeIsSpelled(s, vars);
    }
    UnforgedTextRefers(s, order, vars);
  }

  lemma {:induction false} OpenFreeStretchIsSafe(t: string)
    requires '{' !in t[..Close(t)]
    ensures SafeStretch(t, false)
  {
    if t != [] && t[0] != '}' {
      assert t[..Close(t)] == [t[0]] + t[1..][..Close(t[1..])];
      OpenFreeStretchIsSafe(t[1..]);
    }
  }

  /** Flat text is not nested. */
  lemma {:induction false} FlatIsUnnested(s: string)
    requires Flat(s)
    ensures Unnested(s)
  {
    if s != [] {
      assert forall i, j :: 0 <= i < j < |s[1..]| ==> s[1..][i..j] == s[i + 1..j + 1];
      FlatIsUnnested(s[1..]);
      if s[0] == '{' {
        var t := s[1..];
        forall j | 0 <= j < Close(t) ensures t[j] != '{' {
          assert s[j + 1] == t[j] && s[0..j + 1] == ['{'] + t[..j];
        }
        OpenFreeStretchIsSafe(t);
      }
    }
  }

  lemma {:induction false} SkipNoOpenUnnested(w: string, t: string)
    requires NoOpen(w)
    ensures Unnested(w + t) <==> Unnested(t)
  {
    if w == [] {
      assert w + t == t;
    } else {
      assert w[0] in w;
      assert (w + t)[1..] == w[1..] + t;
      SkipNoOpenUnnested(w[1..], t);
    }
  }

  /** A JSON object with a reference as its value is not nested, although it is not flat. */
  lemma JsonIsUnnested(key: string, name: string)
    requires BraceFree(key) && IsIdentifier(name)
    ensures var s := "{\"" + (key + "\":\"" + (Placeholder(name) + "\"}"));
            Unnested(s) && !Flat(s) && ExtractVarRefs(s) == [name]
  {
    var lead := key + "\":\"";
    var rest := Placeholder(name) + "\"}";
    var s := "{\"" + (lead + rest);
    assert s[1..] == "\"" + (lead + rest) && s[1] == '"';
    RefIsUnnested(name, "\"}");
    SkipNoOpenUnnested("\"" + lead, rest);
    SkipNoOpen("\"" + lead, rest, map[]);
    assert s[1..] == ("\"" + lead) + rest;
    OneRef(name, "\"}");
    SkipNoOpen("\"}", "", map[]);
    assert "\"}" + "" == "\"}";
    QuoteAfterBrace(s);
    SecondBrace(s, "\"" + lead, rest);
  }

  lemma QuoteAfterBrace(s: string)
    requires |s| > 1 && s[0] == '{' && s[1] == '"'
    ensures !StartsRef(s) && SafeAfterBrace(s[1..])
  {
    if Close(s) < |s| {
      assert Close(s) > 1;
      assert s[1..Close(s)][0] == '"' && '"' in NameAt(s);
    }
    assert s[1..] != [] && s[1..][0] == '"';
  }

  lemma RefIsUnnested(name: string, rest: string)
    requires IsIdentifier(name) && NoOpen(rest)
    ensures Unnested(Placeholder(name) + rest)
  {
    var s := Placeholder(name) + rest;
    IdentifierBraceFree(name);
    CloseAt(name, rest);
    assert s[1..|name| + 1] == name;
    assert s[1..] == name + "}" + rest;
    SkipNoOpenUnnested(name + "}" + rest, "");
    assert name + "}" + rest + "" == name + "}" + rest;
  }

  lemma SecondBrace(s: string, w: string, rest: string)
    requires BraceFree(w) && rest != [] && rest[0] == '{' && s == "{" + w + rest
    ensures !Flat(s)
  {
    assert s[|w| + 1] == '{';
    assert s[0..|w| + 1] == "{" + w;
  }

  lemma OneRef(name: string, rest: string)
    requires IsIdentifier(name)
    ensures ExtractVarRefs(Placeholder(name) + rest) == [name] + ExtractVarRefs(rest)
  {
    var s := Placeholder(name) + rest;
    IdentifierBraceFree(name);
    CloseAt(name, rest);
    assert NameAt(s) == name && AfterVar(s) == rest;
  }

  lemma DoubleBrace(s: string, vars: Vars)
    requires |s| > 1 && s[0] == '{' && s[1] == '{' && Plain(vars)
    ensures !StartsRef(s) && !StartsVar(s, vars)
  {
    if Close(s) < |s| {
      assert Close(s) > 1;
      assert s[1..Close(s)][0] == '{';
      assert !BraceFree(s[1..Close(s)]);
    }
  }

  /** With nesting, binding every reference is not enough: the value spells a new one. */
  lemma NestedTextMayStillRefer(a: string, b: string)
    requires IsIdentifier(a) && IsIdentifier(b)
    ensures var s, vars := "{" + (Placeholder(a) + "}"), map[a := b];
            RefsBound(s, vars) && Plain(vars) && InOrder(s, [a], vars) == Placeholder(b)
            && ExtractVarRefs(InOrder(s, [a], vars)) == [b]
  {
    var t, vars := Placeholder(a) + "}", map[a := b];
    var s := "{" + t;
    IdentifierBraceFree(a);
    IdentifierBraceFree(b);
    assert ExtractVarRefs("}") == [] by { assert "}"[1..] == []; }
    OneRef(a, "}");
    DoubleBrace(s, vars);
    assert s[1..] == t;
    assert ExtractVarRefs(s) == [a];
    ReplaceAllIsSimultaneous(s, a, b);
    CloseAt(a, "}");
    assert NameAt(t) == a && AfterVar(t) == "}";
    assert Simultaneous("}", vars) == "}";
    assert Simultaneous(t, vars) == b + "}";
    OneRef(b, "");
    assert Placeholder(b) + "" == Placeholder(b);
    assert InOrder(s, [a], vars) == InOrder(Simultaneous(s, vars), [], vars);
  }
}
