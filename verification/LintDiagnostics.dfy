/** Every diagnostic of the scenario linter, by what the steps hold. */
module LintDiagnostics {
  import opened GoStrings
  import opened ScenarioLint
  import opened SubstitutedText
  import opened Wrappers

  // ---- one capture ----

  /** "$." and one or more nonempty keys with dots between them. */
  ghost predicate PathWith(path: string) {
    exists keys :: KeyedBy(path, keys)
  }

  ghost predicate KeyedBy(path: string, keys: seq<string>) {
    keys != [] && (forall key :: key in keys ==> key != "" && '.' !in key) && path == "$." + Join(keys, '.')
  }

  lemma {:induction false} JoinSplit(s: string, sep: char)
    ensures Join(Split(s, sep), sep) == s
  {
    if s != [] {
      JoinSplit(s[1..], sep);
      var rest := Split(s[1..], sep);
      if s[0] == sep {
        assert Split(s, sep)[1..] == rest;
      } else {
        assert Split(s, sep)[1..] == rest[1..];
        if |rest| > 1 {
          assert [s[0]] + rest[0] + [sep] + Join(rest[1..], sep) == [s[0]] + (rest[0] + [sep] + Join(rest[1..], sep));
        }
      }
    }
  }

  lemma PathIff(path: string)
    ensures ValidJsonPath(path) <==> PathWith(path)
  {
    if ValidJsonPath(path) {
      var keys := Split(path[2..], '.');
      JoinSplit(path[2..], '.');
      SplitPiecesClean(path[2..], '.');
      assert KeyedBy(path, keys);
    }
    if PathWith(path) {
      var keys :| KeyedBy(path, keys);
      assert path[2..] == Join(keys, '.');
      SplitJoin(keys, '.');
      assert keys[0] in keys;
    }
  }

  /** Where a step of this kind can capture from. */
  predicate Offers(actions: seq<Action>, source: string) {
    |actions| == 1
    && ((actions[0].Exec? && source in ["stdout", "stderr", "exitcode"])
        || (actions[0].Browser? && source in ["text", "html", "count", "location", "value"])
        || (actions[0].Grpc? && source in ["status", "headers"])
        || (actions[0].Tui? && source in ["screen", "exit_code"]))
  }

  lemma OffersIff(actions: seq<Action>, source: string)
    ensures source in Sources(actions) <==> Offers(actions, source)
  {
  }

  ghost predicate BadlySourced(actions: seq<Action>, c: Capture) {
    || (c.jsonPath.None? && c.source.None?)
    || (c.source.Some? && !Offers(actions, c.source.value))
  }

  lemma OriginIff(c: Capture, actions: seq<Action>, d: Diagnostic)
    ensures d in OriginDiags(c, Sources(actions)) <==>
        || (d == Error(BadSource) && BadlySourced(actions, c))
        || (d == Error(BadPath) && c.jsonPath.Some? && !PathWith(c.jsonPath.value))
  {
    if c.jsonPath.Some? { PathIff(c.jsonPath.value); }
    if c.source.Some? { OffersIff(actions, c.source.value); }
  }

  // ---- the captures of a step ----

  lemma {:induction false} CaptureDiagsIff(captures: seq<Capture>, known: Known, sources: set<string>, d: Diagnostic)
    ensures d in CaptureDiags(captures, known, sources) <==> exists i :: CapturesSay(captures, known, sources, i, d)
    decreases |captures|
  {
    if captures != [] {
      var rest, known' := captures[1..], Learn(captures[0], known);
      CaptureDiagsIff(rest, known', sources, d);
      FirstCapture(captures, known, sources, d);
      forall i: nat
        ensures CapturesSay(rest, known', sources, i, d) <==> CapturesSay(captures, known, sources, i + 1, d)
      {
        LaterCapture(captures, known, sources, i, d);
      }
      if i: nat :| CapturesSay(captures, known, sources, i, d) {
        if i > 0 {
          assert CapturesSay(rest, known', sources, i - 1, d);
        }
      }
    }
  }

  ghost predicate CapturesSay(captures: seq<Capture>, known: Known, sources: set<string>, i: nat, d: Diagnostic) {
    i < |captures|
    && (d in NameDiags(captures[i], LearnAll(captures[..i], known)) || d in OriginDiags(captures[i], sources))
  }

  lemma FirstCapture(captures: seq<Capture>, known: Known, sources: set<string>, d: Diagnostic)
    requires captures != []
    ensures d in CaptureDiags(captures, known, sources) <==>
        || CapturesSay(captures, known, sources, 0, d)
        || d in CaptureDiags(captures[1..], Learn(captures[0], known), sources)
  {
    assert captures[..0] == [];
  }

  lemma LaterCapture(captures: seq<Capture>, known: Known, sources: set<string>, i: nat, d: Diagnostic)
    requires captures != []
    ensures CapturesSay(captures[1..], Learn(captures[0], known), sources, i, d) <==>
        CapturesSay(captures, known, sources, i + 1, d)
  {
    if i + 1 < |captures| {
      assert captures[..i + 1][1..] == captures[1..][..i];
    }
  }

  // ---- lines of earlier captures ----

  /** The line of the last well-named capture of name. */
  ghost predicate LatestLine(captures: seq<Capture>, name: string, line: nat) {
    IsIdentifier(name) && exists i: nat :: LatestAt(captures, i, name, line)
  }

  ghost predicate LatestAt(captures: seq<Capture>, i: nat, name: string, line: nat) {
    && i < |captures| && captures[i].name == Some(name) && captures[i].line == line
    && forall j :: i < j < |captures| ==> captures[j].name != Some(name)
  }

  lemma {:induction false} LearnSnoc(captures: seq<Capture>, c: Capture, known: Known)
    ensures LearnAll(captures + [c], known) == Learn(c, LearnAll(captures, known))
    decreases |captures|
  {
    if captures == [] {
      assert [] + [c] == [c] && [c][1..] == [];
    } else {
      assert (captures + [c])[1..] == captures[1..] + [c];
      LearnSnoc(captures[1..], c, Learn(captures[0], known));
    }
  }

  lemma {:induction false} LearntIff(captures: seq<Capture>, name: string, line: nat)
    ensures name in LearnAll(captures, map[]) && LearnAll(captures, map[])[name] == line <==>
        LatestLine(captures, name, line)
  {
    if captures != [] {
      var init, last := captures[..|captures| - 1], captures[|captures| - 1];
      assert captures == init + [last];
      LearntIff(init, name, line);
      LearnSnoc(init, last, map[]);
      LatestOneMore(init, last, name, line);
    }
  }

  lemma LatestOneMore(init: seq<Capture>, last: Capture, name: string, line: nat)
    ensures LatestLine(init + [last], name, line) <==>
        if last.name == Some(name) then IsIdentifier(name) && last.line == line else LatestLine(init, name, line)
  {
    LatestIn(init, last, |init|, name, line);
    if i: nat :| LatestAt(init, i, name, line) {
      LatestIn(init, last, i, name, line);
    }
    if i: nat :| LatestAt(init + [last], i, name, line) {
      LatestIn(init, last, i, name, line);
    }
  }

  lemma LatestIn(init: seq<Capture>, last: Capture, i: nat, name: string, line: nat)
    ensures LatestAt(init + [last], i, name, line) <==>
        if last.name == Some(name) then i == |init| && last.line == line else LatestAt(init, i, name, line)
  {
    var all := init + [last];
    assert all[|init|] == last;
    assert forall j :: 0 <= j < |init| ==> all[j] == init[j];
  }

  /** The captures of the first k steps, in order. */
  function CapturesBefore(steps: seq<Step>): seq<Capture> {
    if steps == [] then [] else steps[0].captures + CapturesBefore(steps[1..])
  }

  lemma {:induction false} LearnConcat(a: seq<Capture>, b: seq<Capture>, known: Known)
    ensures LearnAll(a + b, known) == LearnAll(b, LearnAll(a, known))
    decreases |a|
  {
    if a == [] {
      assert a + b == b;
    } else {
      assert (a + b)[0] == a[0] && (a + b)[1..] == a[1..] + b;
      LearnConcat(a[1..], b, Learn(a[0], known));
    }
  }

  lemma {:induction false} KnownIs(steps: seq<Step>, known: Known)
    ensures KnownAfter(steps, known) == LearnAll(CapturesBefore(steps), known)
    decreases |steps|
  {
    if steps != [] {
      KnownIs(steps[1..], LearnAll(steps[0].captures, known));
      LearnConcat(steps[0].captures, CapturesBefore(steps[1..]), known);
    }
  }

  // ---- the step itself ----

  /** A required field the action lacks. */
  ghost predicate Lacks(a: Action, field: string) {
    match a
    case Request(path, _, _) => field == "path" && path.None?
    case Exec(command, _, _, _) => field == "command" && Value(command) == ""
    case Browser(action, url, selector, value, _, _) =>
      var kind := Value(action);
      || (field == "action" && kind !in ["navigate", "click", "fill", "assert"])
      || (field == "url" && kind == "navigate" && Value(url) == "")
      || (field == "selector" && kind in ["click", "fill", "assert"] && Value(selector) == "")
      || (field == "value" && kind == "fill" && Value(value) == "")
    case Grpc(service, rpc, _, _, stream) =>
      !(stream.Some? && service.None?)
      && ((field == "service" && Value(service) == "") || (field == "method" && Value(rpc) == ""))
    case Ws(_, _, _) => false
    case Tui(launch, inputs) =>
      field == "command" && (launch == Some("") || (launch.None? && forall f :: f in inputs ==> f.None?))
  }

  lemma MissingOne(field: string, value: Option<string>)
    ensures MissingAll([(field, value)]) == Missing(field, value)
  {
    assert [(field, value)][1..] == [];
    assert MissingAll([]) == [];
  }

  lemma MissingTwo(f: string, v: Option<string>, g: string, w: Option<string>)
    ensures MissingAll([(f, v), (g, w)]) == Missing(f, v) + Missing(g, w)
  {
    assert [(f, v), (g, w)][1..] == [(g, w)];
    MissingOne(g, w);
  }

  lemma MissingIff(field: string, value: Option<string>, d: Diagnostic)
    ensures d in Missing(field, value) <==> d == Error(Required(field)) && Value(value) == ""
  {
  }

  lemma BrowserFaultsIff(a: Action, d: Diagnostic)
    requires a.Browser?
    ensures d in ActionFaults(a) <==> d.Error? && d.fault.Required? && Lacks(a, d.fault.field)
  {
    MissingOne("url", a.url);
    MissingOne("selector", a.selector);
    MissingTwo("selector", a.selector, "value", a.value);
    MissingIff("url", a.url, d);
    MissingIff("selector", a.selector, d);
    MissingIff("value", a.value, d);
  }

  lemma FaultsIff(a: Action, d: Diagnostic)
    ensures d in ActionFaults(a) <==> d.Error? && d.fault.Required? && Lacks(a, d.fault.field)
  {
    if a.Browser? {
      BrowserFaultsIff(a, d);
    }
  }

  // ---- every diagnostic ----

  ghost predicate Misnamed(c: Capture) {
    c.name.None? || !IsIdentifier(c.name.value)
  }

  /** What a diagnostic says of capture i of step k; a shadowed name was last captured on the line reported. */
  ghost predicate CaptureHas(steps: seq<Step>, k: nat, i: nat, d: Diagnostic) {
    && k < |steps| && i < |steps[k].captures|
    && var c := steps[k].captures[i];
       match d
       case Error(BadName) => Misnamed(c)
       case Error(BadSource) => BadlySourced(steps[k].actions, c)
       case Error(BadPath) => c.jsonPath.Some? && !PathWith(c.jsonPath.value)
       case Shadows(name, line) =>
         c.name == Some(name) && LatestLine(CapturesBefore(steps[..k]) + steps[k].captures[..i], name, line)
       case _ => false
  }

  ghost predicate SomeCaptureHas(steps: seq<Step>, k: nat, d: Diagnostic) {
    exists i: nat :: CaptureHas(steps, k, i, d)
  }

  /** What a diagnostic says of step k. */
  ghost predicate StepSays(steps: seq<Step>, k: nat, d: Diagnostic)
    requires k < |steps|
  {
    var step := steps[k];
    match d
    case NeverCaptured(name) => Refers(step, name) && !LastCaptured(steps[..k], name)
    case Error(NoSteps) => false
    case Error(StepTypeCount) => |step.actions| != 1
    case Error(Required(field)) => |step.actions| == 1 && Lacks(step.actions[0], field)
    case _ => SomeCaptureHas(steps, k, d)
  }

  /** A capture of these steps has this name, and it is an identifier. */
  ghost predicate LastCaptured(steps: seq<Step>, name: string) {
    IsIdentifier(name) && EarlierCaptures(steps, name)
  }

  lemma ActionSays(step: Step, known: Known, d: Diagnostic)
    ensures d in ActionDiags(step.actions, known) <==>
        || (d == Error(StepTypeCount) && |step.actions| != 1)
        || (d.Error? && d.fault.Required? && |step.actions| == 1 && Lacks(step.actions[0], d.fault.field))
        || (d.NeverCaptured? && Refers(step, d.name) && d.name !in known)
  {
    if |step.actions| == 1 {
      FaultsIff(step.actions[0], d);
      TextWarningsIff(CheckedTexts(step.actions[0]), known);
    }
  }

  lemma CaptureSays(steps: seq<Step>, k: nat, i: nat, d: Diagnostic)
    requires k < |steps|
    ensures CapturesSay(steps[k].captures, KnownAfter(steps[..k], map[]), Sources(steps[k].actions), i, d) <==>
        CaptureHas(steps, k, i, d)
  {
    if i < |steps[k].captures| {
      var c, before := steps[k].captures[i], steps[k].captures[..i];
      OriginIff(c, steps[k].actions, d);
      KnownIs(steps[..k], map[]);
      LearnConcat(CapturesBefore(steps[..k]), before, map[]);
      if d.Shadows? {
        LearntIff(CapturesBefore(steps[..k]) + before, d.name, d.line);
      }
    }
  }

  lemma CapturesSayIff(steps: seq<Step>, k: nat, d: Diagnostic)
    requires k < |steps|
    ensures d in CaptureDiags(steps[k].captures, KnownAfter(steps[..k], map[]), Sources(steps[k].actions)) <==>
        SomeCaptureHas(steps, k, d)
  {
    CaptureDiagsIff(steps[k].captures, KnownAfter(steps[..k], map[]), Sources(steps[k].actions), d);
    forall i: nat {
      CaptureSays(steps, k, i, d);
    }
  }

  lemma StepSaysIff(steps: seq<Step>, k: nat, d: Diagnostic)
    requires k < |steps|
    ensures d in DiagsAt(steps, map[], k) <==> StepSays(steps, k, d)
  {
    ActionSays(steps[k], KnownAfter(steps[..k], map[]), d);
    CapturesSayIff(steps, k, d);
    if d.NeverCaptured? { KnownIff(steps[..k], map[], d.name); }
  }

  /** The linter reports exactly what holds of some step, and a scenario without judged steps. */
  lemma LintIff(setup: seq<Step>, steps: seq<Step>, d: Diagnostic)
    ensures d in Lint(setup, steps) <==>
        (d == Error(NoSteps) && steps == []) || exists k :: 0 <= k < |setup + steps| && StepSays(setup + steps, k, d)
  {
    var all := setup + steps;
    if d in LintSteps(all, map[]) {
      var k := LintStepsFrom(all, map[], d);
      StepSaysIff(all, k, d);
    }
    if k :| 0 <= k < |all| && StepSays(all, k, d) {
      StepSaysIff(all, k, d);
      LintStepsAt(all, map[], k, d);
    }
  }
}
