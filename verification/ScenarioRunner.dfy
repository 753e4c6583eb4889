/**
 The scenario runner's environment of captured variables, over any behaviour of the service, and the agreement of the
 linter's static account with it.
 */
module ScenarioRunner {
  import opened GoStrings
  import opened ScenarioLint
  import opened Substitution
  import opened SubstitutedText
  import opened Wrappers

  datatype Output = Output(body: string, sources: map<string, string>)

  /** One attempt: its output or an error, and whether the retry deadline passes while waiting for the next. */
  datatype Attempt = Attempt(result: Option<Output>, expires: bool)

  /** What the surroundings do to one step. */
  datatype World = World(delayOk: bool, registered: bool, attempts: nat -> Attempt)

  /** evalJSONPath, on JSON text: a value or an error. */
  type JsonPath = (string, string) -> Option<string>

  const DEFAULT_ATTEMPTS := 3

  function Limit(retry: Option<Retry>): nat {
    if retry.None? then 1 else if retry.value.attempts <= 0 then DEFAULT_ATTEMPTS else retry.value.attempts
  }

  /** Attempts made: up to the first success, expiry or the limit. */
  function AttemptsMade(attempts: nat -> Attempt, limit: nat, from: nat): (n: nat)
    decreases limit - from
  {
    if from >= limit then 0
    else if attempts(from).result.Some? || attempts(from).expires then 1
    else 1 + AttemptsMade(attempts, limit, from + 1)
  }

  /** The output of the last attempt made. */
  function Outcome(step: Step, w: World): Option<Output> {
    if step.retry.Some? && !step.retry.value.wellFormed then None
    else
      var n := AttemptsMade(w.attempts, Limit(step.retry), 0);
      if n == 0 then None else w.attempts(n - 1).result
  }

  /** Which attempts are made: every one up to the limit, until one succeeds or the deadline passes after it. */
  lemma {:induction false} AttemptsAre(attempts: nat -> Attempt, limit: nat, from: nat)
    requires from < limit
    ensures var n := AttemptsMade(attempts, limit, from);
            && 1 <= n <= limit - from
            && (forall j :: from <= j < from + n - 1 ==> attempts(j).result.None? && !attempts(j).expires)
            && (from + n < limit ==> attempts(from + n - 1).result.Some? || attempts(from + n - 1).expires)
    decreases limit - from
  {
    if attempts(from).result.None? && !attempts(from).expires && from + 1 < limit {
      AttemptsAre(attempts, limit, from + 1);
    } else if from + 1 == limit {
      assert AttemptsMade(attempts, limit, from + 1) == 0;
    }
  }

  /** Retrying succeeds exactly when some attempt within the limit does and no deadline passed before it. */
  lemma RetrySucceedsIff(attempts: nat -> Attempt, limit: nat, from: nat)
    requires from < limit
    ensures var n := AttemptsMade(attempts, limit, from);
            && 1 <= n <= limit - from
            && (attempts(from + n - 1).result.Some? <==>
                exists k :: from <= k < limit && attempts(k).result.Some?
                            && forall j :: from <= j < k ==> !attempts(j).expires)
  {
    AttemptsAre(attempts, limit, from);
    var last := from + AttemptsMade(attempts, limit, from) - 1;
    if k :| from <= k < limit && attempts(k).result.Some? && forall j :: from <= j < k ==> !attempts(j).expires {
      assert last <= k;
    }
  }

  /** The attempts a step has: one, or what its retry says, three when that is not positive. */
  ghost predicate AttemptLimit(step: Step, n: nat) {
    if step.retry.None? then n == 1
    else if step.retry.value.attempts <= 0 then n == 3
    else n == step.retry.value.attempts
  }

  /** The output of a step is that of its first successful attempt, if no attempt before it ran out of time. */
  lemma OutcomeIff(step: Step, w: World, n: nat, output: Output)
    requires AttemptLimit(step, n)
    ensures Outcome(step, w) == Some(output) <==>
        && (step.retry.Some? ==> step.retry.value.wellFormed)
        && exists k :: 0 <= k < n && w.attempts(k).result == Some(output)
                       && forall j :: 0 <= j < k ==> w.attempts(j).result.None? && !w.attempts(j).expires
  {
    AttemptsAre(w.attempts, n, 0);
    var made := AttemptsMade(w.attempts, n, 0);
    if k :| 0 <= k < n && w.attempts(k).result == Some(output)
            && forall j :: 0 <= j < k ==> w.attempts(j).result.None? && !w.attempts(j).expires {
      assert made - 1 <= k;
      assert k <= made - 1;
    }
  }

  /** executeWithRetry: every attempt is an executor call. */
  method Execute(step: Step, w: World) returns (output: Option<Output>, calls: nat)
    ensures output == Outcome(step, w)
    ensures calls == if step.retry.Some? && !step.retry.value.wellFormed then 0
                     else AttemptsMade(w.attempts, Limit(step.retry), 0)
  {
    output, calls := None, 0;
    if step.retry.Some? && !step.retry.value.wellFormed {
      return;
    }
    var limit := Limit(step.retry);
    while calls < limit
      invariant calls <= limit
      invariant calls + AttemptsMade(w.attempts, limit, calls) == AttemptsMade(w.attempts, limit, 0)
      invariant calls > 0 ==> output == w.attempts(calls - 1).result && output.None?
      invariant calls == 0 ==> output.None?
    {
      var attempt := w.attempts(calls);
      output := attempt.result;
      calls := calls + 1;
      if output.Some? || attempt.expires {
        return;
      }
    }
  }

  // ---- captures ----

  function ResolveCapture(c: Capture, output: Output, json: JsonPath): Option<string> {
    if Value(c.source) != "" then
      var body := if Value(c.source) in output.sources then output.sources[Value(c.source)] else "";
      if Value(c.jsonPath) != "" then json(body, Value(c.jsonPath)) else Some(TrimSpace(body))
    else if Value(c.jsonPath) != "" then json(output.body, Value(c.jsonPath))
    else None
  }

  /** The captures bound in order up to the first that fails. */
  function Bind(captures: seq<Capture>, output: Output, json: JsonPath, vars: Vars): (Vars, bool)
    decreases |captures|
  {
    if captures == [] then (vars, true)
    else
      match ResolveCapture(captures[0], output, json)
      case None => (vars, false)
      case Some(v) => Bind(captures[1..], output, json, vars[Value(captures[0].name) := v])
  }

  // ---- what captures bind, told without binding them ----

  /** The text of a capture source; a missing one is empty. */
  function TextOf(output: Output, source: string): string {
    if source in output.sources then output.sources[source] else ""
  }

  /**
   v is what the capture stands for: with a source alone that text trimmed, with a path the path's value in the source's
   text or, without a source, in the body.
   */
  ghost predicate Designates(c: Capture, output: Output, json: JsonPath, v: string) {
    var source, path := Value(c.source), Value(c.jsonPath);
    && (source != "" || path != "")
    && (source != "" && path == "" ==> v == TrimSpace(TextOf(output, source)))
    && (source != "" && path != "" ==> json(TextOf(output, source), path) == Some(v))
    && (source == "" ==> json(output.body, path) == Some(v))
  }

  ghost predicate Designated(c: Capture, output: Output, json: JsonPath) {
    exists v :: Designates(c, output, json, v)
  }

  lemma ResolvesIff(c: Capture, output: Output, json: JsonPath, v: string)
    ensures ResolveCapture(c, output, json) == Some(v) <==> Designates(c, output, json, v)
    ensures ResolveCapture(c, output, json).Some? <==> Designated(c, output, json)
  {
    if ResolveCapture(c, output, json).Some? {
      assert Designates(c, output, json, ResolveCapture(c, output, json).value);
    }
  }

  /** Capture i is the last of the first m to capture name. */
  ghost predicate LastNamed(captures: seq<Capture>, m: nat, i: nat, name: string)
    requires m <= |captures|
  {
    i < m && Value(captures[i].name) == name && forall j :: i < j < m ==> Value(captures[j].name) != name
  }

  ghost predicate AnyNamed(captures: seq<Capture>, m: nat, name: string)
    requires m <= |captures|
  {
    exists i: nat :: LastNamed(captures, m, i, name)
  }

  /** name holds what the last of the first m captures of that name stands for, or what it held before. */
  ghost predicate Holds(captures: seq<Capture>, m: nat, output: Output, json: JsonPath, vars: Vars, vars': Vars,
                        name: string)
    requires m <= |captures|
  {
    if AnyNamed(captures, m, name)
    then name in vars' && HoldsLast(captures, m, output, json, vars'[name], name)
    else SameAt(vars, vars', name)
  }

  ghost predicate HoldsLast(captures: seq<Capture>, m: nat, output: Output, json: JsonPath, v: string, name: string)
    requires m <= |captures|
  {
    exists i: nat :: LastNamed(captures, m, i, name) && Designates(captures[i], output, json, v)
  }

  predicate SameAt(vars: Vars, vars': Vars, name: string) {
    (name in vars' <==> name in vars) && (name in vars ==> vars'[name] == vars[name])
  }

  /** The first m captures are those before the first that stands for nothing. */
  ghost predicate Resolvable(captures: seq<Capture>, m: nat, output: Output, json: JsonPath) {
    && m <= |captures| && (forall i :: 0 <= i < m ==> Designated(captures[i], output, json))
    && (m < |captures| ==> !Designated(captures[m], output, json))
  }

  /** vars' and ok are what applying the captures must leave. */
  ghost predicate Binds(captures: seq<Capture>, output: Output, json: JsonPath, vars: Vars, vars': Vars, ok: bool) {
    exists m :: Resolvable(captures, m, output, json) && BindsUpTo(captures, m, output, json, vars, vars')
                && (ok <==> m == |captures|)
  }

  ghost predicate BindsUpTo(captures: seq<Capture>, m: nat, output: Output, json: JsonPath, vars: Vars, vars': Vars)
    requires m <= |captures|
  {
    forall name :: Holds(captures, m, output, json, vars, vars', name)
  }

  lemma LastNamedLater(captures: seq<Capture>, m: nat, i: nat, name: string)
    requires 0 < m <= |captures|
    ensures LastNamed(captures[1..], m - 1, i, name) <==> LastNamed(captures, m, i + 1, name)
  {
    if LastNamed(captures[1..], m - 1, i, name) {
      forall j | i + 1 < j < m ensures Value(captures[j].name) != name {
        assert captures[j] == captures[1..][j - 1];
      }
    }
    if LastNamed(captures, m, i + 1, name) {
      forall j | i < j < m - 1 ensures Value(captures[1..][j].name) != name {
        assert captures[j + 1] == captures[1..][j];
      }
    }
  }

  lemma {:induction false} SomeLast(captures: seq<Capture>, m: nat, k: nat, name: string) returns (i: nat)
    requires k < m <= |captures| && Value(captures[k].name) == name
    ensures k <= i && LastNamed(captures, m, i, name)
    decreases m - k
  {
    if j :| k < j < m && Value(captures[j].name) == name {
      i := SomeLast(captures, m, j, name);
    } else {
      i := k;
    }
  }

  lemma HoldsFirst(captures: seq<Capture>, m: nat, output: Output, json: JsonPath, vars: Vars, vars': Vars, v: string,
                   name: string)
    requires 0 < m <= |captures| && Designates(captures[0], output, json, v)
    requires Holds(captures[1..], m - 1, output, json, vars[Value(captures[0].name) := v], vars', name)
    ensures Holds(captures, m, output, json, vars, vars', name)
  {
    var rest, n := captures[1..], m - 1;
    if AnyNamed(rest, n, name) {
      var k: nat :| LastNamed(rest, n, k, name) && Designates(rest[k], output, json, vars'[name]);
      LastNamedLater(captures, m, k, name);
    } else {
      OnlyFirst(captures, m, name);
      if Value(captures[0].name) == name {
        assert LastNamed(captures, m, 0, name);
      }
    }
  }

  lemma OnlyFirst(captures: seq<Capture>, m: nat, name: string)
    requires 0 < m <= |captures| && !AnyNamed(captures[1..], m - 1, name)
    ensures forall i: nat :: LastNamed(captures, m, i, name) <==> i == 0 && Value(captures[0].name) == name
  {
    forall i: nat | LastNamed(captures, m, i, name) ensures i == 0 {
      if i > 0 { LastNamedLater(captures, m, i - 1, name); }
    }
    if Value(captures[0].name) == name {
      var i := SomeLast(captures, m, 0, name);
    }
  }

  /** Binding leaves exactly that: every name, earlier captures of a failing step included. */
  lemma {:induction false} BindIs(captures: seq<Capture>, output: Output, json: JsonPath, vars: Vars) returns (m: nat)
    ensures var (vars', ok) := Bind(captures, output, json, vars);
            Resolvable(captures, m, output, json) && BindsUpTo(captures, m, output, json, vars, vars')
            && (ok <==> m == |captures|)
    decreases |captures|
  {
    var vars' := Bind(captures, output, json, vars).0;
    if captures == [] {
      m := 0;
    } else {
      var value := ResolveCapture(captures[0], output, json);
      ResolvesIff(captures[0], output, json, if value.Some? then value.value else "");
      if value.None? {
        m := 0;
      } else {
        var vars1 := vars[Value(captures[0].name) := value.value];
        var n := BindIs(captures[1..], output, json, vars1);
        m := n + 1;
        forall name ensures Holds(captures, m, output, json, vars, vars', name) {
          HoldsFirst(captures, m, output, json, vars, vars', value.value, name);
        }
      }
    }
  }

  method ApplyCaptures(captures: seq<Capture>, output: Output, json: JsonPath, vars: Vars)
    returns (vars': Vars, ok: bool)
    ensures (vars', ok) == Bind(captures, output, json, vars)
    ensures Binds(captures, output, json, vars, vars', ok)
  {
    var _ := BindIs(captures, output, json, vars);
    vars', ok := vars, true;
    for i := 0 to |captures|
      invariant ok && Bind(captures[i..], output, json, vars') == Bind(captures, output, json, vars)
    {
      assert captures[i..][0] == captures[i] && captures[i..][1..] == captures[i + 1..];
      var value := ResolveCapture(captures[i], output, json);
      if value.None? {
        ok := false;
        return;
      }
      vars' := vars'[Value(captures[i].name) := value.value];
    }
  }

  // ---- steps ----

  predicate Runs(step: Step, w: World) {
    w.delayOk && step.actions != [] && w.registered && Outcome(step, w).Some?
  }

  function After(step: Step, w: World, json: JsonPath, vars: Vars): Vars {
    if Runs(step, w) then Bind(step.captures, Outcome(step, w).value, json, vars).0 else vars
  }

  /** The step ran and all its captures were resolved. */
  predicate Succeeds(step: Step, w: World, json: JsonPath) {
    Runs(step, w) && Bind(step.captures, Outcome(step, w).value, json, map[]).1
  }

  function VarsAfter(steps: seq<Step>, ws: seq<World>, json: JsonPath, vars: Vars): Vars
    requires |ws| == |steps|
    decreases |steps|
  {
    if steps == [] then vars else VarsAfter(steps[1..], ws[1..], json, After(steps[0], ws[0], json, vars))
  }

  ghost predicate AllSucceed(steps: seq<Step>, ws: seq<World>, json: JsonPath)
    requires |ws| == |steps|
  {
    forall k :: 0 <= k < |steps| ==> Succeeds(steps[k], ws[k], json)
  }

  lemma {:induction false} BindOutcome(captures: seq<Capture>, output: Output, json: JsonPath, vars: Vars, vars': Vars)
    ensures Bind(captures, output, json, vars).1 == Bind(captures, output, json, vars').1
    decreases |captures|
  {
    if captures != [] && ResolveCapture(captures[0], output, json).Some? {
      var name, v := Value(captures[0].name), ResolveCapture(captures[0], output, json).value;
      BindOutcome(captures[1..], output, json, vars[name := v], vars'[name := v]);
    }
  }

  /** Executor calls one step makes: none unless its delay passes and it has a registered executor. */
  function CallsMade(step: Step, w: World): nat {
    if !w.delayOk || step.actions == [] || !w.registered || (step.retry.Some? && !step.retry.value.wellFormed) then 0
    else AttemptsMade(w.attempts, Limit(step.retry), 0)
  }

  method RunStep(step: Step, w: World, json: JsonPath, vars: Vars)
    returns (vars': Vars, ran: bool, captured: bool, calls: nat)
    ensures vars' == After(step, w, json, vars) && ran == Runs(step, w)
    ensures ran && captured <==> Succeeds(step, w, json)
    ensures calls == CallsMade(step, w)
  {
    vars', ran, captured, calls := vars, false, false, 0;
    if !w.delayOk {
      return;
    }
    if step.actions == [] || !w.registered {
      return;
    }
    var output;
    output, calls := Execute(step, w);
    if output.None? {
      return;
    }
    ran := true;
    BindOutcome(step.captures, output.value, json, vars, map[]);
    vars', captured := ApplyCaptures(step.captures, output.value, json, vars);
  }

  /** An executor call: the step it is for and the variables it is given. */
  datatype Call = Call(step: nat, vars: Vars)

  ghost predicate CallSeesEarlier(call: Call, all: seq<Step>, ws: seq<World>, json: JsonPath)
    requires |ws| == |all|
  {
    call.step < |all| && call.vars == VarsAfter(all[..call.step], ws[..call.step], json, map[])
  }

  /** The calls of the first k steps: each step's attempts, all with what the steps before it left bound. */
  function CallLog(all: seq<Step>, ws: seq<World>, json: JsonPath, k: nat): seq<Call>
    requires |ws| == |all| && k <= |all|
  {
    if k == 0 then []
    else
      var vars := VarsAfter(all[..k - 1], ws[..k - 1], json, map[]);
      CallLog(all, ws, json, k - 1) + seq(CallsMade(all[k - 1], ws[k - 1]), _ => Call(k - 1, vars))
  }

  lemma {:induction false} LoggedCallsSeeEarlier(all: seq<Step>, ws: seq<World>, json: JsonPath, k: nat)
    requires |ws| == |all| && k <= |all|
    ensures forall c :: c in CallLog(all, ws, json, k) ==> CallSeesEarlier(c, all, ws, json)
  {
    if k > 0 {
      LoggedCallsSeeEarlier(all, ws, json, k - 1);
    }
  }

  /** How many of the calls are for step i. */
  function CallsFor(log: seq<Call>, i: nat): nat {
    if log == [] then 0 else CallsFor(log[..|log| - 1], i) + if log[|log| - 1].step == i then 1 else 0
  }

  lemma {:induction false} CallsForConcat(a: seq<Call>, b: seq<Call>, i: nat)
    ensures CallsFor(a + b, i) == CallsFor(a, i) + CallsFor(b, i)
  {
    if b == [] {
      assert a + b == a;
    } else {
      assert (a + b)[..|a + b| - 1] == a + b[..|b| - 1];
      CallsForConcat(a, b[..|b| - 1], i);
    }
  }

  lemma {:induction false} CallsForOne(step: nat, vars: Vars, n: nat, i: nat)
    ensures CallsFor(seq(n, _ => Call(step, vars)), i) == if i == step then n else 0
  {
    if n > 0 {
      CallsForOne(step, vars, n - 1, i);
      assert seq(n, _ => Call(step, vars))[..n - 1] == seq(n - 1, _ => Call(step, vars));
    }
  }

  /** Each step begun is called as often as it makes attempts, no later step at all, and steps are called in order. */
  lemma {:induction false} LoggedCallsCount(all: seq<Step>, ws: seq<World>, json: JsonPath, k: nat, i: nat)
    requires |ws| == |all| && k <= |all| && i < |all|
    ensures CallsFor(CallLog(all, ws, json, k), i) == if i < k then CallsMade(all[i], ws[i]) else 0
    ensures forall a, b :: 0 <= a < b < |CallLog(all, ws, json, k)| ==>
              CallLog(all, ws, json, k)[a].step <= CallLog(all, ws, json, k)[b].step
    ensures forall c :: c in CallLog(all, ws, json, k) ==> c.step < k
  {
    if k > 0 {
      var vars := VarsAfter(all[..k - 1], ws[..k - 1], json, map[]);
      var more := seq(CallsMade(all[k - 1], ws[k - 1]), _ => Call(k - 1, vars));
      LoggedCallsCount(all, ws, json, k - 1, i);
      CallsForConcat(CallLog(all, ws, json, k - 1), more, i);
      CallsForOne(k - 1, vars, CallsMade(all[k - 1], ws[k - 1]), i);
    }
  }

  lemma {:induction false} VarsAfterSnoc(steps: seq<Step>, ws: seq<World>, json: JsonPath, vars: Vars, k: nat)
    requires |ws| == |steps| && k < |steps|
    ensures VarsAfter(steps[..k + 1], ws[..k + 1], json, vars)
         == After(steps[k], ws[k], json, VarsAfter(steps[..k], ws[..k], json, vars))
    decreases k
  {
    var vars' := After(steps[0], ws[0], json, vars);
    assert steps[..k + 1][1..] == steps[1..][..k] && ws[..k + 1][1..] == ws[1..][..k];
    if k > 0 {
      assert steps[..k][1..] == steps[1..][..k - 1] && ws[..k][1..] == ws[1..][..k - 1];
      VarsAfterSnoc(steps[1..], ws[1..], json, vars', k - 1);
    } else {
      assert VarsAfter(steps[1..][..0], ws[1..][..0], json, vars') == vars';
    }
  }

  /** A step runs once its delay has passed, it has an action with an executor, and an attempt succeeded. */
  lemma StepIs(step: Step, w: World, json: JsonPath, vars: Vars)
    ensures Runs(step, w) <==> w.delayOk && step.actions != [] && w.registered && Outcome(step, w).Some?
    ensures !Runs(step, w) ==> After(step, w, json, vars) == vars
    ensures Runs(step, w) ==>
        Binds(step.captures, Outcome(step, w).value, json, vars, After(step, w, json, vars), Succeeds(step, w, json))
    ensures Succeeds(step, w, json) <==>
        Runs(step, w) && forall c :: c in step.captures ==> Designated(c, Outcome(step, w).value, json)
  {
    if Runs(step, w) {
      var output := Outcome(step, w).value;
      BindOutcome(step.captures, output, json, vars, map[]);
      var m := BindIs(step.captures, output, json, vars);
      assert m < |step.captures| ==> step.captures[m] in step.captures;
    }
  }

  /** Executor calls of a step: none before it can run, else every attempt up to the first success or deadline. */
  lemma CallsAre(step: Step, w: World, n: nat)
    requires AttemptLimit(step, n)
    ensures var calls := CallsMade(step, w);
            && (calls > 0 <==> w.delayOk && step.actions != [] && w.registered
                               && (step.retry.Some? ==> step.retry.value.wellFormed))
            && calls <= n
            && (forall j :: 0 <= j < calls - 1 ==> w.attempts(j).result.None? && !w.attempts(j).expires)
            && (0 < calls < n ==> w.attempts(calls - 1).result.Some? || w.attempts(calls - 1).expires)
  {
    AttemptsAre(w.attempts, n, 0);
  }

  /** The step gives name a value: one of the captures it gets to is for that name. */
  ghost predicate Gives(step: Step, w: World, json: JsonPath, name: string) {
    Runs(step, w) && exists m :: Resolvable(step.captures, m, Outcome(step, w).value, json)
                                 && AnyNamed(step.captures, m, name)
  }

  ghost predicate GivesValue(step: Step, w: World, json: JsonPath, name: string, v: string) {
    Runs(step, w) && exists m :: Resolvable(step.captures, m, Outcome(step, w).value, json)
                                 && HoldsLast(step.captures, m, Outcome(step, w).value, json, v, name)
  }

  lemma AfterStepIs(step: Step, w: World, json: JsonPath, vars: Vars, name: string)
    ensures var vars' := After(step, w, json, vars);
            if Gives(step, w, json, name) then name in vars' && GivesValue(step, w, json, name, vars'[name])
            else SameAt(vars, vars', name)
  {
    StepIs(step, w, json, vars);
    if Runs(step, w) {
      var output, vars' := Outcome(step, w).value, After(step, w, json, vars);
      var m :| Resolvable(step.captures, m, output, json) && BindsUpTo(step.captures, m, output, json, vars, vars');
      forall n | Resolvable(step.captures, n, output, json) ensures n == m {
        OneResolvable(step.captures, m, n, output, json);
      }
      assert Holds(step.captures, m, output, json, vars, vars', name);
    }
  }

  lemma OneResolvable(captures: seq<Capture>, m: nat, n: nat, output: Output, json: JsonPath)
    requires Resolvable(captures, m, output, json) && Resolvable(captures, n, output, json)
    ensures m == n
  {
  }

  ghost predicate NoneGives(steps: seq<Step>, ws: seq<World>, json: JsonPath, from: nat, n: nat, name: string)
    requires |ws| == |steps| && n <= |steps|
  {
    forall j :: from <= j < n ==> !Gives(steps[j], ws[j], json, name)
  }

  /** Of the first n steps, k is the last to give name a value, and this is it. */
  ghost predicate LastGives(steps: seq<Step>, ws: seq<World>, json: JsonPath, n: nat, k: nat, name: string, v: string)
    requires |ws| == |steps| && n <= |steps|
  {
    k < n && GivesValue(steps[k], ws[k], json, name, v) && NoneGives(steps, ws, json, k + 1, n, name)
  }

  /** name holds what the last of the first n steps to give it a value gave it, or what it held before. */
  ghost predicate HoldsAfter(steps: seq<Step>, ws: seq<World>, json: JsonPath, n: nat, vars: Vars, vars': Vars,
                             name: string)
    requires |ws| == |steps| && n <= |steps|
  {
    || (NoneGives(steps, ws, json, 0, n, name) && SameAt(vars, vars', name))
    || (name in vars' && exists k: nat :: LastGives(steps, ws, json, n, k, name, vars'[name]))
  }

  /** What the environment holds after any steps of any run, for every name. */
  lemma {:induction false} ValuesAfter(steps: seq<Step>, ws: seq<World>, json: JsonPath, n: nat, vars: Vars,
                                       name: string)
    requires |ws| == |steps| && n <= |steps|
    ensures HoldsAfter(steps, ws, json, n, vars, VarsAfter(steps[..n], ws[..n], json, vars), name)
  {
    if n > 0 {
      var before := VarsAfter(steps[..n - 1], ws[..n - 1], json, vars);
      ValuesAfter(steps, ws, json, n - 1, vars, name);
      VarsAfterSnoc(steps, ws, json, vars, n - 1);
      HoldsOneMore(steps, ws, json, n - 1, vars, before, name);
    }
  }

  lemma HoldsOneMore(steps: seq<Step>, ws: seq<World>, json: JsonPath, n: nat, vars: Vars, before: Vars, name: string)
    requires |ws| == |steps| && n < |steps| && HoldsAfter(steps, ws, json, n, vars, before, name)
    ensures HoldsAfter(steps, ws, json, n + 1, vars, After(steps[n], ws[n], json, before), name)
  {
    var vars' := After(steps[n], ws[n], json, before);
    AfterStepIs(steps[n], ws[n], json, before, name);
    if Gives(steps[n], ws[n], json, name) {
      assert LastGives(steps, ws, json, n + 1, n, name, vars'[name]);
    } else {
      HoldsOn(steps, ws, json, n, vars, before, vars', name);
    }
  }

  lemma HoldsOn(steps: seq<Step>, ws: seq<World>, json: JsonPath, n: nat, vars: Vars, before: Vars, vars': Vars,
                name: string)
    requires |ws| == |steps| && n < |steps| && HoldsAfter(steps, ws, json, n, vars, before, name)
    requires !Gives(steps[n], ws[n], json, name) && SameAt(before, vars', name)
    ensures HoldsAfter(steps, ws, json, n + 1, vars, vars', name)
  {
    if !NoneGives(steps, ws, json, 0, n, name) {
      var k: nat :| LastGives(steps, ws, json, n, k, name, before[name]);
      assert LastGives(steps, ws, json, n + 1, k, name, vars'[name]);
    }
  }

  /** After k steps: the environment and the calls they leave. */
  ghost predicate RanUpTo(k: nat, vars: Vars, calls: seq<Call>, all: seq<Step>, ws: seq<World>, json: JsonPath)
    requires |ws| == |all|
  {
    k <= |all| && vars == VarsAfter(all[..k], ws[..k], json, map[]) && calls == CallLog(all, ws, json, k)
  }

  lemma RanOneMore(k: nat, vars: Vars, calls: seq<Call>, all: seq<Step>, ws: seq<World>, json: JsonPath)
    requires |ws| == |all| && k < |all| && RanUpTo(k, vars, calls, all, ws, json)
    ensures RanUpTo(k + 1, After(all[k], ws[k], json, vars),
                    calls + seq(CallsMade(all[k], ws[k]), _ => Call(k, vars)), all, ws, json)
  {
    VarsAfterSnoc(all, ws, json, map[], k);
  }

  /** The setup step that ends the run: it fails, and those before it succeed. */
  ghost predicate StopsAt(setup: seq<Step>, ws: seq<World>, json: JsonPath, k: nat)
    requires |ws| >= |setup|
  {
    k < |setup| && !Succeeds(setup[k], ws[k], json) && AllSucceed(setup[..k], ws[..k], json)
  }

  /** Setup steps first: the first that fails, or whose captures fail, ends the run. reached counts the steps begun. */
  method RunSetup(setup: seq<Step>, steps: seq<Step>, ws: seq<World>, json: JsonPath)
      returns (ok: bool, vars: Vars, calls: seq<Call>, reached: nat)
    requires |ws| == |setup + steps|
    ensures ok <==> AllSucceed(setup, ws[..|setup|], json)
    ensures ok ==> reached == |setup|
    ensures !ok ==> reached > 0 && StopsAt(setup, ws, json, reached - 1)
    ensures RanUpTo(reached, vars, calls, setup + steps, ws, json)
  {
    vars, calls, reached := map[], [], 0;
    while reached < |setup|
      invariant reached <= |setup| && RanUpTo(reached, vars, calls, setup + steps, ws, json)
      invariant forall i :: 0 <= i < reached ==> Succeeds(setup[i], ws[i], json)
    {
      var k := reached;
      var vars', ran, captured, made := RunStep(setup[k], ws[k], json, vars);
      RanOneMore(k, vars, calls, setup + steps, ws, json);
      calls := calls + seq(made, _ => Call(k, vars));
      vars := vars';
      reached := k + 1;
      if !ran || !captured {
        assert !Succeeds(setup[k], ws[..|setup|][k], json);
        return false, vars, calls, reached;
      }
    }
    ok := true;
  }

  /** Which judged steps ran. */
  ghost predicate Judged(results: seq<bool>, steps: seq<Step>, ws: seq<World>)
    requires |ws| >= |steps| >= |results|
  {
    forall i :: 0 <= i < |results| ==> results[i] == Runs(steps[i], ws[|ws| - |steps| + i])
  }

  lemma JudgedOneMore(results: seq<bool>, steps: seq<Step>, ws: seq<World>, ran: bool)
    requires |ws| >= |steps| > |results| && Judged(results, steps, ws)
    requires ran == Runs(steps[|results|], ws[|ws| - |steps| + |results|])
    ensures Judged(results + [ran], steps, ws)
  {
  }

  /** Then the judged steps, all of them; a failing capture of a judged step is only logged. */
  method RunJudged(setup: seq<Step>, steps: seq<Step>, ws: seq<World>, json: JsonPath, vars0: Vars, calls0: seq<Call>)
      returns (judged: seq<bool>, calls: seq<Call>)
    requires |ws| == |setup + steps| && RanUpTo(|setup|, vars0, calls0, setup + steps, ws, json)
    ensures |judged| == |steps| && Judged(judged, steps, ws)
    ensures calls == CallLog(setup + steps, ws, json, |setup + steps|)
  {
    judged, calls := [], calls0;
    var vars := vars0;
    for i := 0 to |steps|
      invariant RanUpTo(|setup| + i, vars, calls, setup + steps, ws, json)
      invariant |judged| == i && Judged(judged, steps, ws)
    {
      var k := |setup| + i;
      var vars', ran, captured, made := RunStep(steps[i], ws[k], json, vars);
      RanOneMore(k, vars, calls, setup + steps, ws, json);
      JudgedOneMore(judged, steps, ws, ran);
      calls := calls + seq(made, _ => Call(k, vars));
      judged := judged + [ran];
      vars := vars';
    }
  }

  /** The executor calls of a run are those of every step begun, and no others. */
  method Run(setup: seq<Step>, steps: seq<Step>, ws: seq<World>, json: JsonPath)
      returns (results: Option<seq<bool>>, calls: seq<Call>)
    requires |ws| == |setup + steps|
    ensures results.Some? <==> AllSucceed(setup, ws[..|setup|], json)
    ensures results.Some? ==> (|results.value| == |steps| && Judged(results.value, steps, ws))
    ensures results.Some? ==> calls == CallLog(setup + steps, ws, json, |setup + steps|)
    ensures results.None? ==>
        exists k: nat :: StopsAt(setup, ws, json, k) && calls == CallLog(setup + steps, ws, json, k + 1)
  {
    var ok, vars, reached;
    ok, vars, calls, reached := RunSetup(setup, steps, ws, json);
    if !ok {
      assert StopsAt(setup, ws, json, reached - 1);
      return None, calls;
    }
    var judged;
    judged, calls := RunJudged(setup, steps, ws, json, vars, calls);
    results := Some(judged);
  }

  // ---- the linter against the runner ----

  lemma {:induction false} BoundByCaptures(captures: seq<Capture>, output: Output, json: JsonPath, vars: Vars,
                                           name: string)
    requires IsIdentifier(name)
    ensures var r := Bind(captures, output, json, vars);
            && (name in r.0 ==> name in vars || Captures(captures, name))
            && (name in vars ==> name in r.0)
            && (r.1 && Captures(captures, name) ==> name in r.0)
    decreases |captures|
  {
    if captures != [] {
      var c := captures[0];
      assert c in captures;
      var value := ResolveCapture(c, output, json);
      if value.Some? {
        BoundByCaptures(captures[1..], output, json, vars[Value(c.name) := value.value], name);
        assert Captures(captures, name) <==> c.name == Some(name) || Captures(captures[1..], name) by {
          assert captures == [c] + captures[1..];
        }
      }
    }
  }

  lemma BoundByStep(step: Step, w: World, json: JsonPath, vars: Vars, name: string)
    requires IsIdentifier(name)
    ensures name in After(step, w, json, vars) ==> name in vars || Captures(step.captures, name)
    ensures name in vars ==> name in After(step, w, json, vars)
    ensures Succeeds(step, w, json) && Captures(step.captures, name) ==> name in After(step, w, json, vars)
  {
    if Runs(step, w) {
      BoundByCaptures(step.captures, Outcome(step, w).value, json, vars, name);
      BindOutcome(step.captures, Outcome(step, w).value, json, vars, map[]);
    }
  }

  /** Whatever the service does, only captured names are bound; and all of them, when every step succeeds. */
  lemma {:induction false} BoundAfter(steps: seq<Step>, ws: seq<World>, json: JsonPath, vars: Vars, name: string)
    requires |ws| == |steps| && IsIdentifier(name)
    ensures name in VarsAfter(steps, ws, json, vars) ==> name in vars || EarlierCaptures(steps, name)
    ensures name in vars ==> name in VarsAfter(steps, ws, json, vars)
    ensures AllSucceed(steps, ws, json) && EarlierCaptures(steps, name) ==> name in VarsAfter(steps, ws, json, vars)
    decreases |steps|
  {
    if steps != [] {
      BoundByStep(steps[0], ws[0], json, vars, name);
      BoundAfter(steps[1..], ws[1..], json, After(steps[0], ws[0], json, vars), name);
      assert EarlierCaptures(steps, name) <==>
          Captures(steps[0].captures, name) || EarlierCaptures(steps[1..], name) by {
        assert steps == [steps[0]] + steps[1..];
        assert steps[0] in steps;
      }
      assert AllSucceed(steps, ws, json) ==> AllSucceed(steps[1..], ws[1..], json);
    }
  }

  /**
   Sound: where the linter is silent about a reference of step k, every run whose earlier steps succeeded has it bound
   when the step executes.
   */
  lemma LintSoundness(setup: seq<Step>, steps: seq<Step>, ws: seq<World>, json: JsonPath, k: nat, name: string)
    requires |ws| == |setup + steps| && k < |ws|
    requires Refers((setup + steps)[k], name) && NeverCaptured(name) !in Lint(setup, steps)
    requires AllSucceed((setup + steps)[..k], ws[..k], json)
    ensures name in VarsAfter((setup + steps)[..k], ws[..k], json, map[])
  {
    var all := setup + steps;
    LintWarnsIff(setup, steps, name);
    ReferredIsIdentifier(all[k], name);
    assert EarlierCaptures(all[..k], name);
    BoundAfter(all[..k], ws[..k], json, map[], name);
  }

  ghost predicate NeverBoundAt(all: seq<Step>, k: nat, name: string) {
    forall ws: seq<World>, json: JsonPath :: |ws| == |all| && k < |all| ==>
      name !in VarsAfter(all[..k], ws[..k], json, map[])
  }

  /** Exact: where the linter warns about a reference, some step makes it and no run has the name bound by then. */
  lemma LintCompleteness(setup: seq<Step>, steps: seq<Step>, name: string) returns (k: nat)
    requires NeverCaptured(name) in Lint(setup, steps)
    ensures k < |setup + steps| && Refers((setup + steps)[k], name) && NeverBoundAt(setup + steps, k, name)
  {
    var all := setup + steps;
    LintWarnsIff(setup, steps, name);
    k :| 0 <= k < |all| && Refers(all[k], name) && !EarlierCaptures(all[..k], name);
    ReferredIsIdentifier(all[k], name);
    forall ws: seq<World>, json: JsonPath | |ws| == |all| ensures name !in VarsAfter(all[..k], ws[..k], json, map[]) {
      BoundAfter(all[..k], ws[..k], json, map[], name);
    }
  }
}
