/** From a clean lint to the texts the executors really use, and where the linter does not look. */
module LintedRun {
  import opened ScenarioLint
  import opened ScenarioRunner
  import opened Substitution
  import opened SubstitutedText
  import opened Wrappers

  /** The texts the executor of a step substitutes into. */
  function SubstitutedTexts(a: Action): seq<string> {
    match a
    case Request(path, headers, body) =>
      [Value(path)] + headers
      + (match body case NoBody => [] case Text(text) => [text] case Structured(json) => [json])
    case Exec(command, stdin, env, files) =>
      [Value(command), Value(stdin)] + env + FileTexts(files)
    case Browser(action, url, selector, value, text, textAbsent) =>
      [Value(url), Value(selector), Value(value), Value(text), Value(textAbsent)]
    case Grpc(service, rpc, message, metadata, stream) =>
      [Value(service), Value(rpc), Value(message)] + metadata + (if stream.Some? then stream.value else [])
    case Ws(url, id, send) =>
      [Value(url), Value(id), Value(send)]
    case Tui(launch, inputs) =>
      [Value(launch)] + Values(inputs)
  }

  /** Where the linter does not look: structured bodies, browser fields foreign to the action, a collector's method. */
  function UncheckedTexts(a: Action): seq<string> {
    match a
    case Request(_, _, body) => if body.Structured? then [body.json] else []
    case Browser(_, url, selector, value, text, textAbsent) =>
      if !ValidBrowserAction(a) then SubstitutedTexts(a)
      else if Value(a.action) == "navigate" then [Value(selector), Value(value)]
      else if Value(a.action) == "fill" then [Value(url)]
      else [Value(url), Value(value)]
    case Grpc(service, rpc, _, _, _) => if StreamCollect(a) then [Value(service), Value(rpc)] else []
    case _ => []
  }

  /** Every substituted text is checked or one of the listed exceptions, and nothing else is checked. */
  lemma CheckedOrExcepted(a: Action, t: string)
    ensures t in SubstitutedTexts(a) <==> t in CheckedTexts(a) || t in UncheckedTexts(a)
  {
    if a.Browser? && ValidBrowserAction(a) {
      RequiredTextsAre(a, t);
    }
  }

  lemma RequiredTextsAre(a: Action, t: string)
    requires a.Browser? && ValidBrowserAction(a)
    ensures t in RequiredTexts(BrowserFields(a)) <==>
        match Value(a.action)
        case "navigate" => t == Value(a.url)
        case "fill" => t == Value(a.selector) || t == Value(a.value)
        case _ => t == Value(a.selector)
  {
    var fields := BrowserFields(a);
    assert RequiredTexts(fields[1..]) == if |fields| == 2 then [Value(fields[1].1)] else [];
  }

  /** A reference inside a structured body is substituted but never checked, whatever name it is. */
  lemma StructuredBodyEscapes(path: string, name: string)
    requires IsIdentifier(name) && ExtractVarRefs(path) == []
    ensures var body := "[\"" + (Placeholder(name) + "\"]");
            var step := Step([Request(Some(path), [], Structured(body))], None, []);
            Lint([], [step]) == [] && body in SubstitutedTexts(step.actions[0]) && ExtractVarRefs(body) == [name]
  {
    var body := "[\"" + (Placeholder(name) + "\"]");
    var action := Request(Some(path), [], Structured(body));
    var step := Step([action], None, []);
    OneRef(name, "\"]");
    SkipNoOpen("\"]", "", map[]);
    assert "\"]" + "" == "\"]";
    SkipNoOpen("[\"", Placeholder(name) + "\"]", map[]);
    assert CheckedTexts(action) == [path];
    assert TextWarnings([path], map[]) == [];
    assert StepDiags(step, map[]) == [];
    assert [] + [step] == [step];
    assert LintSteps([step], map[]) == [];
  }

  // ---- names of a clean scenario ----

  ghost predicate AllNamed(steps: seq<Step>) {
    forall s, c :: s in steps && c in s.captures ==> NamedCapture(c)
  }

  lemma BadNameReported(c: Capture, known: Known)
    ensures NamedCapture(c) || Error(BadName) in NameDiags(c, known)
  {
  }

  lemma {:induction false} CleanCapturesNamed(captures: seq<Capture>, known: Known, sources: set<string>)
    requires Error(BadName) !in CaptureDiags(captures, known, sources)
    ensures forall c :: c in captures ==> NamedCapture(c)
    decreases |captures|
  {
    if captures != [] {
      assert captures == [captures[0]] + captures[1..];
      BadNameReported(captures[0], known);
      CleanCapturesNamed(captures[1..], Learn(captures[0], known), sources);
    }
  }

  lemma StepNamed(steps: seq<Step>, k: nat)
    requires k < |steps| && Error(BadName) !in LintSteps(steps, map[])
    ensures forall c :: c in steps[k].captures ==> NamedCapture(c)
  {
    var known, s := KnownAfter(steps[..k], map[]), steps[k];
    if Error(BadName) in DiagsAt(steps, map[], k) {
      LintStepsAt(steps, map[], k, Error(BadName));
    }
    CleanCapturesNamed(s.captures, known, Sources(s.actions));
  }

  lemma InSecond(a: seq<Diagnostic>, b: seq<Diagnostic>, d: Diagnostic)
    ensures d in b ==> d in a + b
  {
  }

  lemma NoBadNames(setup: seq<Step>, steps: seq<Step>)
    requires NoErrors(Lint(setup, steps))
    ensures Error(BadName) !in LintSteps(setup + steps, map[])
  {
    var first := if steps == [] then [Error(NoSteps)] else [];
    InSecond(first, LintSteps(setup + steps, map[]), Error(BadName));
  }

  lemma CleanStepsNamed(setup: seq<Step>, steps: seq<Step>)
    requires NoErrors(Lint(setup, steps))
    ensures AllNamed(setup + steps)
  {
    var all := setup + steps;
    NoBadNames(setup, steps);
    forall k | 0 <= k < |all| ensures forall c :: c in all[k].captures ==> NamedCapture(c) {
      StepNamed(all, k);
    }
  }

  lemma {:induction false} BindKeepsIdentifiers(captures: seq<Capture>, output: Output, json: JsonPath, vars: Vars)
    requires IdentifierKeys(vars) && forall c :: c in captures ==> NamedCapture(c)
    ensures IdentifierKeys(Bind(captures, output, json, vars).0)
    decreases |captures|
  {
    if captures != [] && ResolveCapture(captures[0], output, json).Some? {
      assert captures[0] in captures;
      BindKeepsIdentifiers(captures[1..], output, json,
        vars[Value(captures[0].name) := ResolveCapture(captures[0], output, json).value]);
    }
  }

  lemma {:induction false} RunKeepsIdentifiers(steps: seq<Step>, ws: seq<World>, json: JsonPath, vars: Vars)
    requires |ws| == |steps| && IdentifierKeys(vars) && AllNamed(steps)
    ensures IdentifierKeys(VarsAfter(steps, ws, json, vars))
    decreases |steps|
  {
    if steps != [] {
      assert steps[0] in steps;
      if Runs(steps[0], ws[0]) {
        BindKeepsIdentifiers(steps[0].captures, Outcome(steps[0], ws[0]).value, json, vars);
      }
      RunKeepsIdentifiers(steps[1..], ws[1..], json, After(steps[0], ws[0], json, vars));
    }
  }

  /** The values an executor substitutes: the captured ones, or for JSON texts their escaped forms. */
  ghost predicate Renders(vals: Vars, vars: Vars) {
    vals.Keys == vars.Keys && forall name :: name in vals ==> BraceFree(vals[name])
  }

  /** The texts a clean scenario gives a step reached by succeeding: bound references, identifiers as names. */
  lemma CleanLintBinds(setup: seq<Step>, steps: seq<Step>, ws: seq<World>, json: JsonPath, k: nat,
                       t: string, vals: Vars)
    requires |ws| == |setup + steps| && k < |ws|
    requires NoErrors(Lint(setup, steps)) && NoNeverCaptured(Lint(setup, steps))
    requires AllSucceed((setup + steps)[..k], ws[..k], json)
    requires |(setup + steps)[k].actions| == 1 && t in CheckedTexts((setup + steps)[k].actions[0])
    requires Renders(vals, VarsAfter((setup + steps)[..k], ws[..k], json, map[]))
    ensures Plain(vals) && IdentifierKeys(vals) && RefsBound(t, vals)
  {
    var all := setup + steps;
    CleanStepsNamed(setup, steps);
    RunKeepsIdentifiers(all[..k], ws[..k], json, map[]);
    forall name | name in vals ensures BraceFree(name) {
      IdentifierBraceFree(name);
    }
    forall name | name in ExtractVarRefs(t) ensures name in vals {
      assert Refers(all[k], name);
      LintSoundness(setup, steps, ws, json, k, name);
    }
  }

  /**
   If a scenario lints without errors or never-captured warnings, then whenever a step executes after its earlier steps
   succeeded and the captured values hold no brace, substituting a text the linter checked is governed by the text
   alone: where it forges nothing, every iteration order gives the same result, free of references exactly when no
   literal brace spells one; and where no reference is nested, it always is.
   */
  lemma CleanLintLeavesNoReference(setup: seq<Step>, steps: seq<Step>, ws: seq<World>, json: JsonPath, k: nat,
      t: string, vals: Vars, order: seq<string>)
    requires |ws| == |setup + steps| && k < |ws|
    requires NoErrors(Lint(setup, steps)) && NoNeverCaptured(Lint(setup, steps))
    requires AllSucceed((setup + steps)[..k], ws[..k], json)
    requires |(setup + steps)[k].actions| == 1 && t in CheckedTexts((setup + steps)[k].actions[0])
    requires IsOrder(order, vals) && Renders(vals, VarsAfter((setup + steps)[..k], ws[..k], json, map[]))
    ensures !HasForge(t, vals) ==> InOrder(t, order, vals) == Simultaneous(t, vals)
    ensures !HasForge(t, vals) ==> (ExtractVarRefs(InOrder(t, order, vals)) == [] <==> !HasSpelling(t, vals))
    ensures Unnested(t) ==> !HasForge(t, vals) && ExtractVarRefs(InOrder(t, order, vals)) == []
  {
    CleanLintBinds(setup, steps, ws, json, k, t, vals);
    if Unnested(t) {
      BoundTextIsClean(t, order, vals);
    }
    if !HasForge(t, vals) {
      UnforgedTextRefers(t, order, vals);
    }
  }
}
