/** The linter's static account of captured variables: which references of a step it warns about. */
module ScenarioLint {
  import opened GoStrings
  import opened Substitution
  import opened SubstitutedText
  import opened Wrappers

  /** A structured body is carried as the JSON text it is marshalled to before substitution. */
  datatype Body = NoBody | Text(text: string) | Structured(json: string)

  /** The step types with the fields that hold text; None is an absent field. Maps are carried as lists of values. */
  datatype Action =
    | Request(path: Option<string>, headers: seq<string>, body: Body)
    | Exec(command: Option<string>, stdin: Option<string>, env: seq<string>, files: seq<(string, string)>)
    | Browser(action: Option<string>, url: Option<string>, selector: Option<string>, value: Option<string>,
              text: Option<string>, textAbsent: Option<string>)
    | Grpc(service: Option<string>, rpc: Option<string>, message: Option<string>, metadata: seq<string>,
           stream: Option<seq<string>>)
    | Ws(wsUrl: Option<string>, id: Option<string>, send: Option<string>)
    | Tui(launch: Option<string>, inputs: seq<Option<string>>)

  datatype Capture = Capture(name: Option<string>, line: nat, source: Option<string>, jsonPath: Option<string>)

  datatype Retry = Retry(attempts: int, wellFormed: bool)

  /** actions: the step-type fields present, in the order the runner looks for them. */
  datatype Step = Step(actions: seq<Action>, retry: Option<Retry>, captures: seq<Capture>)

  datatype Fault = NoSteps | StepTypeCount | Required(field: string) | BadName | BadSource | BadPath

  datatype Diagnostic =
    | Error(fault: Fault)
    | NeverCaptured(name: string)
    | Shadows(name: string, line: nat)

  /** Captured names with the line of the latest capture. */
  type Known = map<string, nat>

  function Value(field: Option<string>): string {
    if field.Some? then field.value else ""
  }

  /** One warning for each distinct reference that is not known, in order of first occurrence. */
  function RefWarnings(refs: seq<string>, known: Known, seen: set<string>): (warnings: seq<Diagnostic>)
    decreases |refs|
  {
    if refs == [] then []
    else if refs[0] in seen || refs[0] in known then RefWarnings(refs[1..], known, seen + {refs[0]})
    else [NeverCaptured(refs[0])] + RefWarnings(refs[1..], known, seen + {refs[0]})
  }

  lemma {:induction false} RefWarningsIff(refs: seq<string>, known: Known, seen: set<string>)
    ensures forall d :: d in RefWarnings(refs, known, seen) <==>
        d.NeverCaptured? && d.name in refs && d.name !in known && d.name !in seen
    ensures forall i, j :: 0 <= i < j < |RefWarnings(refs, known, seen)| ==>
        RefWarnings(refs, known, seen)[i] != RefWarnings(refs, known, seen)[j]
    decreases |refs|
  {
    if refs != [] {
      RefWarningsIff(refs[1..], known, seen + {refs[0]});
      assert refs == [refs[0]] + refs[1..];
    }
  }

  function TextWarnings(texts: seq<string>, known: Known): seq<Diagnostic>
    decreases |texts|
  {
    if texts == [] then []
    else RefWarnings(ExtractVarRefs(texts[0]), known, {}) + TextWarnings(texts[1..], known)
  }

  lemma TextWarningsFrom(texts: seq<string>, i: nat, known: Known)
    requires i < |texts|
    ensures TextWarnings(texts[i..], known) ==
        RefWarnings(ExtractVarRefs(texts[i]), known, {}) + TextWarnings(texts[i + 1..], known)
  {
    assert texts[i..][0] == texts[i] && texts[i..][1..] == texts[i + 1..];
  }

  // ---- which texts the linter looks at ----

  function FileTexts(files: seq<(string, string)>): seq<string>
    decreases |files|
  {
    if files == [] then [] else [files[0].0, files[0].1] + FileTexts(files[1..])
  }

  function Values(fields: seq<Option<string>>): seq<string>
    decreases |fields|
  {
    if fields == [] then [] else [Value(fields[0])] + Values(fields[1..])
  }

  /** Fields a browser action must have, in the order they are checked. */
  function BrowserFields(a: Action): seq<(string, Option<string>)>
    requires a.Browser?
  {
    var action := Value(a.action);
    if action == "navigate" then [("url", a.url)]
    else if action == "click" then [("selector", a.selector)]
    else if action == "fill" then [("selector", a.selector), ("value", a.value)]
    else if action == "assert" then [("selector", a.selector)]
    else []
  }

  predicate ValidBrowserAction(a: Action)
    requires a.Browser?
  {
    Value(a.action) in {"navigate", "click", "fill", "assert"}
  }

  function RequiredTexts(fields: seq<(string, Option<string>)>): seq<string>
    decreases |fields|
  {
    if fields == [] then [] else [Value(fields[0].1)] + RequiredTexts(fields[1..])
  }

  /** A gRPC step that only collects from a background stream names no service. */
  predicate StreamCollect(a: Action)
    requires a.Grpc?
  {
    a.stream.Some? && a.service.None?
  }

  function CheckedTexts(a: Action): seq<string> {
    match a
    case Request(path, headers, body) =>
      [Value(path)] + headers + (if body.Text? then [body.text] else [])
    case Exec(command, stdin, env, files) =>
      [Value(command), Value(stdin)] + env + FileTexts(files)
    case Browser(action, url, selector, value, text, textAbsent) =>
      if ValidBrowserAction(a) then RequiredTexts(BrowserFields(a)) + [Value(text), Value(textAbsent)] else []
    case Grpc(service, rpc, message, metadata, stream) =>
      (if StreamCollect(a) then [] else [Value(service), Value(rpc)])
      + [Value(message)] + metadata + (if stream.Some? then stream.value else [])
    case Ws(url, id, send) =>
      [Value(url), Value(id), Value(send)]
    case Tui(launch, inputs) =>
      [Value(launch)] + Values(inputs)
  }

  function Missing(field: string, value: Option<string>): seq<Diagnostic> {
    if Value(value) == "" then [Error(Required(field))] else []
  }

  function MissingAll(fields: seq<(string, Option<string>)>): seq<Diagnostic>
    decreases |fields|
  {
    if fields == [] then [] else Missing(fields[0].0, fields[0].1) + MissingAll(fields[1..])
  }

  /** Required fields; an HTTP path need only be present. */
  function ActionFaults(a: Action): seq<Diagnostic> {
    match a
    case Request(path, _, _) => if path.None? then [Error(Required("path"))] else []
    case Exec(command, _, _, _) => Missing("command", command)
    case Browser(_, _, _, _, _, _) =>
      if ValidBrowserAction(a) then MissingAll(BrowserFields(a)) else [Error(Required("action"))]
    case Grpc(service, rpc, _, _, _) =>
      if StreamCollect(a) then [] else Missing("service", service) + Missing("method", rpc)
    case Ws(_, _, _) => []
    case Tui(launch, inputs) =>
      if launch == Some("") || (launch.None? && forall f :: f in inputs ==> f.None?)
        then [Error(Required("command"))] else []
  }

  function ActionDiags(actions: seq<Action>, known: Known): seq<Diagnostic> {
    if |actions| != 1 then [Error(StepTypeCount)]
    else ActionFaults(actions[0]) + TextWarnings(CheckedTexts(actions[0]), known)
  }

  // ---- captures ----

  predicate ValidJsonPath(path: string) {
    "$." <= path && path[2..] != [] && forall key :: key in Split(path[2..], '.') ==> key != []
  }

  /** Sources each step type offers. */
  function Sources(actions: seq<Action>): set<string> {
    if |actions| != 1 then {}
    else
      match actions[0]
      case Exec(_, _, _, _) => {"stdout", "stderr", "exitcode"}
      case Browser(_, _, _, _, _, _) => {"text", "html", "count", "location", "value"}
      case Grpc(_, _, _, _, _) => {"status", "headers"}
      case Tui(_, _) => {"screen", "exit_code"}
      case _ => {}
  }

  predicate NamedCapture(c: Capture) {
    c.name.Some? && IsIdentifier(c.name.value)
  }

  function NameDiags(c: Capture, known: Known): seq<Diagnostic> {
    if !NamedCapture(c) then [Error(BadName)]
    else if c.name.value in known then [Shadows(c.name.value, known[c.name.value])]
    else []
  }

  function OriginDiags(c: Capture, sources: set<string>): seq<Diagnostic> {
    (if c.jsonPath.None? && c.source.None? then [Error(BadSource)] else [])
    + (if c.jsonPath.Some? && !ValidJsonPath(c.jsonPath.value) then [Error(BadPath)] else [])
    + (if c.source.Some? && c.source.value !in sources then [Error(BadSource)] else [])
  }

  function Learn(c: Capture, known: Known): Known {
    if NamedCapture(c) then known[c.name.value := c.line] else known
  }

  function CaptureDiags(captures: seq<Capture>, known: Known, sources: set<string>): seq<Diagnostic>
    decreases |captures|
  {
    if captures == [] then []
    else NameDiags(captures[0], known) + OriginDiags(captures[0], sources)
         + CaptureDiags(captures[1..], Learn(captures[0], known), sources)
  }

  function LearnAll(captures: seq<Capture>, known: Known): Known
    decreases |captures|
  {
    if captures == [] then known else LearnAll(captures[1..], Learn(captures[0], known))
  }

  // ---- steps ----

  /** A step is checked against what earlier steps captured, and only then are its own captures learnt. */
  function StepDiags(step: Step, known: Known): seq<Diagnostic> {
    ActionDiags(step.actions, known) + CaptureDiags(step.captures, known, Sources(step.actions))
  }

  function LintSteps(steps: seq<Step>, known: Known): seq<Diagnostic>
    decreases |steps|
  {
    if steps == [] then [] else StepDiags(steps[0], known) + LintSteps(steps[1..], LearnAll(steps[0].captures, known))
  }

  function KnownAfter(steps: seq<Step>, known: Known): Known
    decreases |steps|
  {
    if steps == [] then known else KnownAfter(steps[1..], LearnAll(steps[0].captures, known))
  }

  function Lint(setup: seq<Step>, steps: seq<Step>): seq<Diagnostic> {
    (if steps == [] then [Error(NoSteps)] else []) + LintSteps(setup + steps, map[])
  }

  // ---- the linter's loops over the mutable capture set ----

  class CaptureSet {
    var vars: Known

    constructor ()
      ensures vars == map[]
    {
      vars := map[];
    }

    method Add(name: string, line: nat)
      modifies this
      ensures vars == old(vars)[name := line]
    {
      vars := vars[name := line];
    }

    method CheckVarRefs(refs: seq<string>) returns (diags: seq<Diagnostic>)
      ensures diags == RefWarnings(refs, vars, {})
    {
      diags := [];
      var seen: set<string> := {};
      for i := 0 to |refs|
        invariant diags + RefWarnings(refs[i..], vars, seen) == RefWarnings(refs, vars, {})
      {
        if refs[i] !in seen {
          if refs[i] !in vars {
            diags := diags + [NeverCaptured(refs[i])];
          }
        }
        seen := seen + {refs[i]};
      }
    }

    method CheckTexts(texts: seq<string>) returns (diags: seq<Diagnostic>)
      ensures diags == TextWarnings(texts, vars)
    {
      diags := [];
      for i := 0 to |texts|
        invariant diags + TextWarnings(texts[i..], vars) == TextWarnings(texts, vars)
      {
        TextWarningsFrom(texts, i, vars);
        var more := CheckVarRefs(ExtractVarRefs(texts[i]));
        diags := diags + more;
      }
    }

    method LintCapture(c: Capture, sources: set<string>) returns (diags: seq<Diagnostic>)
      modifies this
      ensures vars == Learn(c, old(vars)) && diags == NameDiags(c, old(vars)) + OriginDiags(c, sources)
    {
      diags := NameDiags(c, vars) + OriginDiags(c, sources);
      if NamedCapture(c) {
        Add(c.name.value, c.line);
      }
    }

    method LintCaptures(captures: seq<Capture>, sources: set<string>) returns (diags: seq<Diagnostic>)
      modifies this
      ensures vars == LearnAll(captures, old(vars)) && diags == CaptureDiags(captures, old(vars), sources)
    {
      diags := [];
      for i := 0 to |captures|
        invariant LearnAll(captures[i..], vars) == LearnAll(captures, old(vars))
        invariant diags + CaptureDiags(captures[i..], vars, sources) == CaptureDiags(captures, old(vars), sources)
      {
        assert captures[i..][0] == captures[i] && captures[i..][1..] == captures[i + 1..];
        var more := LintCapture(captures[i], sources);
        diags := diags + more;
      }
    }

    method LintStep(step: Step) returns (diags: seq<Diagnostic>)
      modifies this
      ensures vars == LearnAll(step.captures, old(vars)) && diags == StepDiags(step, old(vars))
    {
      if |step.actions| != 1 {
        diags := [Error(StepTypeCount)];
      } else {
        var warnings := CheckTexts(CheckedTexts(step.actions[0]));
        diags := ActionFaults(step.actions[0]) + warnings;
      }
      var more := LintCaptures(step.captures, Sources(step.actions));
      diags := diags + more;
    }
  }

  method LintScenario(setup: seq<Step>, steps: seq<Step>) returns (diags: seq<Diagnostic>)
    ensures diags == Lint(setup, steps)
  {
    var known := new CaptureSet();
    var all := setup + steps;
    ghost var first := if steps == [] then [Error(NoSteps)] else [];
    diags := if steps == [] then [Error(NoSteps)] else [];
    for i := 0 to |all|
      invariant diags + LintSteps(all[i..], known.vars) == first + LintSteps(all, map[])
    {
      assert all[i..][0] == all[i] && all[i..][1..] == all[i + 1..];
      var more := known.LintStep(all[i]);
      diags := diags + more;
    }
    assert LintSteps(all[|all|..], known.vars) == [];
  }

  // ---- what the diagnostics say ----

  lemma {:induction false} TextWarningsIff(texts: seq<string>, known: Known)
    ensures forall d :: d in TextWarnings(texts, known) <==>
        d.NeverCaptured? && d.name !in known && Mentions(texts, d.name)
    decreases |texts|
  {
    if texts != [] {
      RefWarningsIff(ExtractVarRefs(texts[0]), known, {});
      TextWarningsIff(texts[1..], known);
      forall name ensures Mentions(texts, name) <==> name in ExtractVarRefs(texts[0]) || Mentions(texts[1..], name) {
        assert texts == [texts[0]] + texts[1..];
        if name in ExtractVarRefs(texts[0]) { assert texts[0] in texts; }
      }
    }
  }

  ghost predicate Mentions(texts: seq<string>, name: string) {
    exists t :: t in texts && name in ExtractVarRefs(t)
  }

  lemma {:induction false} CaptureDiagsNeverWarn(captures: seq<Capture>, known: Known, sources: set<string>)
    ensures forall d :: d in CaptureDiags(captures, known, sources) ==> !d.NeverCaptured?
    decreases |captures|
  {
    if captures != [] {
      CaptureDiagsNeverWarn(captures[1..], Learn(captures[0], known), sources);
    }
  }

  lemma {:induction false} MissingAllNeverWarn(fields: seq<(string, Option<string>)>)
    ensures forall d :: d in MissingAll(fields) ==> d.Error?
    decreases |fields|
  {
    if fields != [] {
      MissingAllNeverWarn(fields[1..]);
    }
  }

  lemma ActionFaultsNeverWarn(a: Action)
    ensures forall d :: d in ActionFaults(a) ==> d.Error?
  {
    if a.Browser? { MissingAllNeverWarn(BrowserFields(a)); }
  }

  /** The step refers to name in a text the linter checks. */
  ghost predicate Refers(step: Step, name: string) {
    |step.actions| == 1 && Mentions(CheckedTexts(step.actions[0]), name)
  }

  /** A step draws a warning for exactly the names it refers to that no earlier step captures. */
  lemma StepWarnsIff(step: Step, known: Known, name: string)
    ensures NeverCaptured(name) in StepDiags(step, known) <==> Refers(step, name) && name !in known
  {
    CaptureDiagsNeverWarn(step.captures, known, Sources(step.actions));
    if |step.actions| == 1 {
      ActionFaultsNeverWarn(step.actions[0]);
      TextWarningsIff(CheckedTexts(step.actions[0]), known);
    }
  }

  /** The diagnostics of the k-th step, given what the steps before it captured. */
  function DiagsAt(steps: seq<Step>, known: Known, k: nat): seq<Diagnostic>
    requires k < |steps|
  {
    StepDiags(steps[k], KnownAfter(steps[..k], known))
  }

  function Flatten<T>(parts: seq<seq<T>>): seq<T> {
    if parts == [] then [] else parts[0] + Flatten(parts[1..])
  }

  lemma {:induction false} FlattenHolds<T>(parts: seq<seq<T>>, d: T)
    ensures d in Flatten(parts) <==> exists k :: 0 <= k < |parts| && d in parts[k]
  {
    if parts != [] {
      FlattenHolds(parts[1..], d);
      if k :| 0 <= k < |parts| && d in parts[k] {
        assert k > 0 ==> parts[1..][k - 1] == parts[k];
      }
    }
  }

  /** Step by step. */
  function Parts(steps: seq<Step>, known: Known): seq<seq<Diagnostic>>
    decreases |steps|
  {
    if steps == [] then []
    else [StepDiags(steps[0], known)] + Parts(steps[1..], LearnAll(steps[0].captures, known))
  }

  lemma {:induction false} PartsFlatten(steps: seq<Step>, known: Known)
    ensures Flatten(Parts(steps, known)) == LintSteps(steps, known)
    decreases |steps|
  {
    if steps != [] {
      PartsFlatten(steps[1..], LearnAll(steps[0].captures, known));
      assert Parts(steps, known)[1..] == Parts(steps[1..], LearnAll(steps[0].captures, known));
    }
  }

  lemma {:induction false} PartsAre(steps: seq<Step>, known: Known, k: nat)
    requires k < |steps|
    ensures |Parts(steps, known)| == |steps| && Parts(steps, known)[k] == DiagsAt(steps, known, k)
    decreases |steps|
  {
    if k > 0 {
      assert steps[..k][1..] == steps[1..][..k - 1];
      PartsAre(steps[1..], LearnAll(steps[0].captures, known), k - 1);
    } else {
      PartsLength(steps, known);
    }
  }

  lemma {:induction false} PartsLength(steps: seq<Step>, known: Known)
    ensures |Parts(steps, known)| == |steps|
    decreases |steps|
  {
    if steps != [] {
      PartsLength(steps[1..], LearnAll(steps[0].captures, known));
    }
  }

  lemma LintStepsAt(steps: seq<Step>, known: Known, k: nat, d: Diagnostic)
    requires k < |steps| && d in DiagsAt(steps, known, k)
    ensures d in LintSteps(steps, known)
  {
    PartsFlatten(steps, known);
    PartsAre(steps, known, k);
    FlattenHolds(Parts(steps, known), d);
  }

  lemma LintStepsFrom(steps: seq<Step>, known: Known, d: Diagnostic) returns (k: nat)
    requires d in LintSteps(steps, known)
    ensures k < |steps| && d in DiagsAt(steps, known, k)
  {
    PartsFlatten(steps, known);
    FlattenHolds(Parts(steps, known), d);
    PartsLength(steps, known);
    k :| 0 <= k < |Parts(steps, known)| && d in Parts(steps, known)[k];
    PartsAre(steps, known, k);
  }

  /** What is known when a step is checked: the names validly captured by the steps before it. */
  ghost predicate Captures(captures: seq<Capture>, name: string) {
    exists c :: c in captures && c.name == Some(name)
  }

  ghost predicate EarlierCaptures(steps: seq<Step>, name: string) {
    exists s :: s in steps && Captures(s.captures, name)
  }

  lemma {:induction false} LearnAllIff(captures: seq<Capture>, known: Known, name: string)
    ensures name in LearnAll(captures, known) <==> name in known || (IsIdentifier(name) && Captures(captures, name))
    decreases |captures|
  {
    if captures != [] {
      LearnAllIff(captures[1..], Learn(captures[0], known), name);
      assert captures == [captures[0]] + captures[1..];
      if captures[0].name == Some(name) { assert captures[0] in captures; }
    }
  }

  lemma {:induction false} KnownIff(steps: seq<Step>, known: Known, name: string)
    ensures name in KnownAfter(steps, known) <==> name in known || (IsIdentifier(name) && EarlierCaptures(steps, name))
    decreases |steps|
  {
    if steps != [] {
      LearnAllIff(steps[0].captures, known, name);
      KnownIff(steps[1..], LearnAll(steps[0].captures, known), name);
      assert steps == [steps[0]] + steps[1..];
    }
  }

  /**
   The linter warns that name is never captured exactly when some step refers to it and no earlier step, setup first,
   captures it.
   */
  lemma LintWarnsIff(setup: seq<Step>, steps: seq<Step>, name: string)
    ensures NeverCaptured(name) in Lint(setup, steps) <==>
        exists k :: 0 <= k < |setup + steps| && Refers((setup + steps)[k], name)
                    && !EarlierCaptures((setup + steps)[..k], name)
  {
    var all := setup + steps;
    if NeverCaptured(name) in Lint(setup, steps) {
      var k := LintStepsFrom(all, map[], NeverCaptured(name));
      StepWarnsIff(all[k], KnownAfter(all[..k], map[]), name);
      KnownIff(all[..k], map[], name);
      ReferredIsIdentifier(all[k], name);
    }
    forall k | 0 <= k < |all| && Refers(all[k], name) && !EarlierCaptures(all[..k], name)
      ensures NeverCaptured(name) in LintSteps(all, map[])
    {
      KnownIff(all[..k], map[], name);
      StepWarnsIff(all[k], KnownAfter(all[..k], map[]), name);
      LintStepsAt(all, map[], k, NeverCaptured(name));
    }
  }

  lemma ReferredIsIdentifier(step: Step, name: string)
    requires Refers(step, name)
    ensures IsIdentifier(name)
  {
    var t :| t in CheckedTexts(step.actions[0]) && name in ExtractVarRefs(t);
    RefsAreIdentifiers(t);
  }

  ghost predicate NoErrors(diags: seq<Diagnostic>) {
    forall d :: d in diags ==> !d.Error?
  }

  ghost predicate NoNeverCaptured(diags: seq<Diagnostic>) {
    forall d :: d in diags ==> !d.NeverCaptured?
  }
}
