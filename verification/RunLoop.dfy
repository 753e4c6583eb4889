/**
 The monolithic convergence loop as a state machine. Generation, containers, validation and the file system are an
 adversary: a script of events, one per iteration, with any outcome, score and cost.
 */
module RunLoop {
  import opened Wrappers
  import opened Escalation

  type FileSet = map<string, string>
  type Scores = map<string, real>

  const MAX_STRATIFIED_TIER := 3
  /** Regressions after which patch mode is switched off. */
  const PATCH_REGRESSION_LIMIT := 2

  datatype Options = Options(
    threshold: real, maxIterations: int, stallLimit: int, budgetUSD: real,
    blockOnRegression: bool, stratified: bool, patchMode: bool, frugalModel: Option<string>, model: string)

  datatype Status = Converged | Stalled | BudgetExceeded | MaxIterations

  /** What happens once the service container was asked to start. */
  datatype AfterStart =
    | TestCommandFailed
    | ServeError  // the test command or the validator itself failed: the run returns an error
    | Validated(score: real, scenarios: Scores, files: FileSet, validationCost: real, written: bool)

  /** One iteration, as the outside world decides it. */
  datatype Event =
    | GenerateError
    | NotServed(cost: real)  // no files, build failure or session failure: one stall
    | Served(cost: real, startFailed: bool, after: AfterStart)

  /** The run state's fields as a value. */
  datatype State = State(
    totalCost: real, best: real, bestFiles: Option<FileSet>, bestDir: FileSet, stallCount: nat, lastImproved: bool,
    scenarioScores: Scores, patchActive: bool, patchRegressions: nat, ladder: Option<Ladder>, activeTier: nat)

  datatype Verdict = Continue | Return(status: Status) | Fail

  // ---- one iteration ----

  predicate OverBudget(opts: Options, s: State) {
    opts.budgetUSD > 0.0 && s.totalCost >= opts.budgetUSD
  }

  function CheckStalled(opts: Options, s: State): Verdict {
    if s.stallCount >= opts.stallLimit then Return(Stalled) else Continue
  }

  function RecordStall(s: State): State {
    s.(stallCount := s.stallCount + 1)
  }

  /** Scenarios that were at or above the threshold before and dropped below it now. */
  function Regressions(prev: Scores, curr: Scores, threshold: real): set<string> {
    set id | id in curr && id in prev && prev[id] >= threshold && curr[id] < threshold
  }

  predicate Converges(opts: Options, s: State, v: AfterStart)
    requires v.Validated?
  {
    v.score >= opts.threshold
    && !(opts.blockOnRegression && Regressions(s.scenarioScores, v.scenarios, opts.threshold) != {})
  }

  function TrackPatchRegression(s: State, score: real): State {
    if !s.patchActive || score >= s.best then s
    else s.(patchRegressions := s.patchRegressions + 1,
            patchActive := s.patchRegressions + 1 < PATCH_REGRESSION_LIMIT)
  }

  function ProcessValidation(opts: Options, s: State, v: AfterStart): (State, Verdict)
    requires v.Validated?
  {
    var scored := s.(scenarioScores := v.scenarios);
    if Converges(opts, s, v) then Accept(scored, v)
    else if v.score > s.best then Improve(opts, scored, v)
    else
      var stalled := TrackPatchRegression(RecordStall(scored), v.score);
      (stalled, Settle(opts, stalled))
  }

  function Accept(s: State, v: AfterStart): (State, Verdict)
    requires v.Validated?
  {
    if !v.written then (s, Fail)
    else (s.(best := v.score, bestFiles := Some(v.files), bestDir := s.bestDir + v.files), Return(Converged))
  }

  function Improve(opts: Options, s: State, v: AfterStart): (State, Verdict)
    requires v.Validated?
  {
    var improved := s.(best := v.score, bestFiles := Some(v.files), stallCount := 0,
                       patchRegressions := 0, lastImproved := true);
    if !v.written then (improved, Fail)
    else
      var kept := improved.(bestDir := s.bestDir + v.files);
      (kept, Settle(opts, kept))
  }

  function Settle(opts: Options, s: State): Verdict {
    if s.stallCount >= opts.stallLimit then Return(Stalled)
    else if OverBudget(opts, s) then Return(BudgetExceeded)
    else Continue
  }

  function AddCost(s: State, cost: real): State {
    s.(totalCost := s.totalCost + cost)
  }

  /**
   One iteration. A failed container start is recorded as a stall, but unless that stall ends the run the iteration
   goes on to the test command and to validation.
   */
  function Iterate(opts: Options, before: State, e: Event): (State, Verdict) {
    var s := before.(lastImproved := false);
    match e
    case GenerateError => (s, Fail)
    case NotServed(cost) =>
      var stalled := RecordStall(AddCost(s, cost));
      (stalled, CheckStalled(opts, stalled))
    case Served(cost, startFailed, after) =>
      var started := if startFailed then RecordStall(AddCost(s, cost)) else AddCost(s, cost);
      if startFailed && CheckStalled(opts, started) != Continue then (started, CheckStalled(opts, started))
      else Serve(opts, started, after)
  }

  function Serve(opts: Options, s: State, after: AfterStart): (State, Verdict) {
    match after
    case TestCommandFailed =>
      var stalled := RecordStall(s);
      (stalled, CheckStalled(opts, stalled))
    case ServeError => (s, Fail)
    case Validated(_, _, _, cost, _) => ProcessValidation(opts, AddCost(s, cost), after)
  }

  function Escalate(s: State): State {
    match s.ladder
    case None => s
    case Some(l) => s.(ladder := Some(Record(l, s.lastImproved)))
  }

  /** Converging a tier below the last one moves on; everything per-tier starts afresh. */
  predicate Advances(s: State, verdict: Verdict) {
    verdict == Return(Converged) && s.activeTier != 0 && s.activeTier < MAX_STRATIFIED_TIER
  }

  function NextTier(opts: Options, s: State): State {
    s.(activeTier := s.activeTier + 1, best := 0.0, stallCount := 0, lastImproved := false, scenarioScores := map[],
       patchActive := opts.patchMode, patchRegressions := 0, ladder := if s.ladder.Some? then Some(FRESH) else None)
  }

  // ---- whole runs ----

  datatype Run =
    | Running(state: State)
    | Finished(final: State, status: Status, iterations: int)
    | Failed

  function Initial(opts: Options, seedCost: real): State {
    State(seedCost, 0.0, None, map[], 0, false, map[], opts.patchMode, 0,
          if opts.frugalModel.Some? then Some(FRESH) else None, if opts.stratified then 1 else 0)
  }

  /** The model an iteration begun in s is given. */
  function ModelFor(opts: Options, s: State): string {
    if s.ladder.Some? && s.ladder.value.tier == Frugal && opts.frugalModel.Some? then opts.frugalModel.value
    else opts.model
  }

  /** The body of the loop for iteration iter. */
  function LoopBody(opts: Options, s: State, e: Event, iter: nat): Run {
    if OverBudget(opts, s) then Finished(s, BudgetExceeded, iter - 1)
    else
      var (next, verdict) := Iterate(opts, s, e);
      if verdict == Fail then Failed
      else
        var escalated := Escalate(next);
        if Advances(escalated, verdict) then Running(NextTier(opts, escalated))
        else if verdict.Return? then Finished(escalated, verdict.status, iter)
        else Running(escalated)
  }

  /** The run after n passes through the loop; script(i) is iteration i. */
  function RunTo(opts: Options, seedCost: real, script: nat -> Event, n: nat): Run {
    if n == 0 then Running(Initial(opts, seedCost))
    else
      var before := RunTo(opts, seedCost, script, n - 1);
      if before.Running? then LoopBody(opts, before.state, script(n), n) else before
  }

  function RunAll(opts: Options, seedCost: real, script: nat -> Event): Run {
    var last := RunTo(opts, seedCost, script, if opts.maxIterations > 0 then opts.maxIterations else 0);
    if last.Running? then Finished(last.state, MaxIterations, opts.maxIterations) else last
  }

  // ---- the imperative loop ----

  /** The mutable run state. The escalation object is owned by it and null when escalation is off. */
  class RunState {
    const opts: Options
    var totalCost: real
    var bestSatisfaction: real
    var bestFiles: Option<FileSet>
    var bestDir: FileSet
    var stallCount: nat
    var lastImproved: bool
    var scenarioScores: Scores
    var patchActive: bool
    var patchRegressionCount: nat
    var escalation: EscalationState?
    var activeTier: nat

    ghost function Owned(): set<object>
      reads this
    {
      {this} + if escalation != null then {escalation} else {}
    }

    function View(): State
      reads this, escalation
    {
      State(totalCost, bestSatisfaction, bestFiles, bestDir, stallCount, lastImproved, scenarioScores, patchActive,
            patchRegressionCount, if escalation != null then Some(escalation.State()) else None, activeTier)
    }

    /** Escalation switches between the two models of the options. */
    ghost predicate Wired()
      reads this
    {
      escalation != null ==> opts.frugalModel == Some(escalation.frugalModel) && opts.model == escalation.primaryModel
    }

    function CurrentModel(): (model: string)
      requires Wired()
      reads this, escalation
      ensures model == ModelFor(opts, View())
    {
      if escalation != null then escalation.CurrentModel() else opts.model
    }

    constructor (opts: Options, composedCost: real)
      ensures this.opts == opts && View() == Initial(opts, composedCost) && fresh(Owned()) && Wired()
    {
      this.opts := opts;
      totalCost, bestSatisfaction, bestFiles, bestDir := composedCost, 0.0, None, map[];
      stallCount, lastImproved, scenarioScores := 0, false, map[];
      patchActive, patchRegressionCount := opts.patchMode, 0;
      activeTier := if opts.stratified then 1 else 0;
      escalation := null;
      new;
      if opts.frugalModel.Some? {
        escalation := new EscalationState(opts.frugalModel.value, opts.model);
      }
    }

    method AddStall()
      modifies this
      ensures escalation == old(escalation) && View() == RecordStall(old(View()))
    {
      stallCount := stallCount + 1;
    }

    /** Counts a score below the best while patch mode is on; the second one switches it off. */
    method TrackRegression(score: real)
      modifies `patchRegressionCount, `patchActive
      ensures View() == TrackPatchRegression(old(View()), score)
    {
      if !patchActive || score >= bestSatisfaction {
        return;
      }
      patchRegressionCount := patchRegressionCount + 1;
      if patchRegressionCount >= PATCH_REGRESSION_LIMIT {
        patchActive := false;
      }
    }

    method AcceptFiles(v: AfterStart) returns (verdict: Verdict)
      requires v.Validated?
      modifies `bestDir, `bestSatisfaction, `bestFiles
      ensures (View(), verdict) == Accept(old(View()), v)
    {
      if !v.written {
        return Fail;
      }
      bestDir := bestDir + v.files;
      bestSatisfaction := v.score;
      bestFiles := Some(v.files);
      return Return(Converged);
    }

    method KeepImprovement(v: AfterStart) returns (verdict: Verdict)
      requires v.Validated?
      modifies `bestDir, `bestSatisfaction, `bestFiles, `stallCount, `patchRegressionCount, `lastImproved
      ensures (View(), verdict) == Improve(opts, old(View()), v)
    {
      bestSatisfaction := v.score;
      bestFiles := Some(v.files);
      stallCount, patchRegressionCount, lastImproved := 0, 0, true;
      if !v.written {
        return Fail;
      }
      bestDir := bestDir + v.files;
      return Settle(opts, View());
    }

    /** Post-validation logic: convergence, improvement or stall. */
    method Process(v: AfterStart) returns (verdict: Verdict)
      requires v.Validated?
      modifies this
      ensures escalation == old(escalation)
      ensures (View(), verdict) == ProcessValidation(opts, old(View()), v)
    {
      var converge := v.score >= opts.threshold;
      if converge && opts.blockOnRegression && Regressions(scenarioScores, v.scenarios, opts.threshold) != {} {
        converge := false;
      }
      scenarioScores := v.scenarios;
      if converge {
        verdict := AcceptFiles(v);
      } else if v.score > bestSatisfaction {
        verdict := KeepImprovement(v);
      } else {
        stallCount := stallCount + 1;
        TrackRegression(v.score);
        verdict := Settle(opts, View());
      }
    }

    method RunIteration(e: Event) returns (verdict: Verdict)
      modifies this
      ensures escalation == old(escalation)
      ensures (View(), verdict) == Iterate(opts, old(View()), e)
    {
      lastImproved := false;
      if e.GenerateError? {
        return Fail;
      }
      totalCost := totalCost + e.cost;
      if e.NotServed? {
        AddStall();
        return CheckStalled(opts, View());
      }
      if e.startFailed {
        AddStall();
        if CheckStalled(opts, View()) != Continue {
          return CheckStalled(opts, View());
        }
      }
      match e.after {
        case TestCommandFailed =>
          AddStall();
          return CheckStalled(opts, View());
        case ServeError =>
          return Fail;
        case Validated(_, _, _, cost, _) =>
          totalCost := totalCost + cost;
          verdict := Process(e.after);
      }
    }

    /** Clears what belongs to one tier; the best files and directory stay. */
    method ResetForTier()
      modifies `bestSatisfaction, `stallCount, `lastImproved, `scenarioScores, `patchActive, `patchRegressionCount
      ensures View() == old(View()).(best := 0.0, stallCount := 0, lastImproved := false, scenarioScores := map[],
                                     patchActive := opts.patchMode, patchRegressions := 0)
    {
      bestSatisfaction, stallCount, lastImproved, scenarioScores := 0.0, 0, false, map[];
      patchActive, patchRegressionCount := opts.patchMode, 0;
    }

    /** Moves to the next tier when a tier below the last one has just converged. */
    method AdvanceTierIfNeeded(verdict: Verdict) returns (advanced: bool)
      requires Wired()
      modifies this
      ensures fresh(Owned() - old(Owned())) && Wired()
      ensures advanced <==> Advances(old(View()), verdict)
      ensures View() == if advanced then NextTier(opts, old(View())) else old(View())
    {
      if verdict != Return(Converged) || activeTier == 0 || activeTier >= MAX_STRATIFIED_TIER {
        return false;
      }
      activeTier := activeTier + 1;
      ResetForTier();
      if escalation != null {
        escalation := new EscalationState(escalation.frugalModel, escalation.primaryModel);
      }
      return true;
    }

    /** One pass through the loop; a value is the run's final answer. model is what the iteration got, if it began. */
    method Pass(e: Event, iter: nat) returns (stop: Option<Run>, model: Option<string>)
      requires Wired()
      modifies Owned()
      ensures fresh(Owned() - old(Owned())) && Wired()
      ensures model == if OverBudget(opts, old(View())) then None else Some(ModelFor(opts, old(View())))
      ensures LoopBody(opts, old(View()), e, iter) == if stop.Some? then stop.value else Running(View())
      ensures stop.Some? ==> !stop.value.Running?
    {
      if OverBudget(opts, View()) {
        return Some(Finished(View(), BudgetExceeded, iter - 1)), None;
      }
      model := Some(CurrentModel());
      var verdict := RunIteration(e);
      if verdict == Fail {
        return Some(Failed), model;
      }
      if escalation != null {
        escalation.RecordOutcome(lastImproved);
      }
      var advanced := AdvanceTierIfNeeded(verdict);
      if verdict.Return? && !advanced {
        return Some(Finished(View(), verdict.status, iter)), model;
      }
      return None, model;
    }
  }

  /** The model of every iteration that began is the one its state calls for. */
  ghost predicate ModelsFit(opts: Options, seedCost: real, script: nat -> Event, models: seq<string>) {
    forall i :: 0 <= i < |models| ==> ModelFits(opts, RunTo(opts, seedCost, script, i), models[i])
  }

  ghost predicate ModelFits(opts: Options, before: Run, model: string) {
    before.Running? && model == ModelFor(opts, before.state)
  }

  /** After n passes the run goes on in s, and its iterations were given these models. */
  ghost predicate RanTo(opts: Options, seedCost: real, script: nat -> Event, n: nat, s: State, models: seq<string>) {
    RunTo(opts, seedCost, script, n) == Running(s) && |models| == n && ModelsFit(opts, seedCost, script, models)
  }

  lemma OneMoreModel(opts: Options, seedCost: real, script: nat -> Event, n: nat, s: State, models: seq<string>)
    requires RanTo(opts, seedCost, script, n, s, models)
    ensures ModelsFit(opts, seedCost, script, models + [ModelFor(opts, s)])
    ensures RunTo(opts, seedCost, script, n + 1) == LoopBody(opts, s, script(n + 1), n + 1)
  {
    var models' := models + [ModelFor(opts, s)];
    forall i | 0 <= i < |models'| ensures ModelFits(opts, RunTo(opts, seedCost, script, i), models'[i]) {
      if i < n {
        assert models'[i] == models[i];
      }
    }
  }

  lemma PassOn(opts: Options, seedCost: real, script: nat -> Event, n: nat, s: State, models: seq<string>, next: State)
    requires RanTo(opts, seedCost, script, n, s, models) && LoopBody(opts, s, script(n + 1), n + 1) == Running(next)
    ensures RanTo(opts, seedCost, script, n + 1, next, models + [ModelFor(opts, s)])
  {
    OneMoreModel(opts, seedCost, script, n, s, models);
  }

  /** The models a whole run reports: each fits its iteration, and a finished run has one for every iteration. */
  ghost predicate ModelsGiven(opts: Options, seedCost: real, script: nat -> Event, r: Run, models: seq<string>) {
    ModelsFit(opts, seedCost, script, models) && (r.Finished? && r.iterations >= 0 ==> |models| == r.iterations)
  }

  lemma StoppedRun(opts: Options, seedCost: real, script: nat -> Event, n: nat, s: State, models: seq<string>, r: Run)
    requires n < opts.maxIterations && RanTo(opts, seedCost, script, n, s, models)
    requires LoopBody(opts, s, script(n + 1), n + 1) == r && !r.Running?
    ensures RunAll(opts, seedCost, script) == r
    ensures ModelsGiven(opts, seedCost, script, r, if OverBudget(opts, s) then models else models + [ModelFor(opts, s)])
  {
    OneMoreModel(opts, seedCost, script, n, s, models);
    OnceOver(opts, seedCost, script, n + 1, opts.maxIterations);
  }

  /** The convergence loop, with the models its iterations were given. */
  method RunAttractor(opts: Options, seedCost: real, script: nat -> Event) returns (r: Run, models: seq<string>)
    ensures r == RunAll(opts, seedCost, script)
    ensures ModelsGiven(opts, seedCost, script, r, models)
  {
    var s := new RunState(opts, seedCost);
    ghost var now := s.View();
    models := [];
    for iter := 0 to if opts.maxIterations > 0 then opts.maxIterations else 0
      invariant s.opts == opts && fresh(s.Owned()) && s.View() == now && s.Wired()
      invariant RanTo(opts, seedCost, script, iter, now, models)
    {
      var stop, model := s.Pass(script(iter + 1), iter + 1);
      if stop.Some? {
        StoppedRun(opts, seedCost, script, iter, now, models, stop.value);
        return stop.value, if model.Some? then models + [model.value] else models;
      }
      ghost var next := s.View();
      PassOn(opts, seedCost, script, iter, now, models, next);
      models := models + [model.value];
      now := next;
    }
    ExhaustedRun(opts, seedCost, script, if opts.maxIterations > 0 then opts.maxIterations else 0, now, models);
    return Finished(s.View(), MaxIterations, opts.maxIterations), models;
  }

  lemma ExhaustedRun(opts: Options, seedCost: real, script: nat -> Event, n: nat, s: State, models: seq<string>)
    requires n == (if opts.maxIterations > 0 then opts.maxIterations else 0)
    requires RanTo(opts, seedCost, script, n, s, models)
    ensures RunAll(opts, seedCost, script) == Finished(s, MaxIterations, opts.maxIterations)
    ensures ModelsGiven(opts, seedCost, script, RunAll(opts, seedCost, script), models)
  {
  }

  lemma {:induction false} OnceOver(opts: Options, seedCost: real, script: nat -> Event, n: nat, m: nat)
    requires n <= m && !RunTo(opts, seedCost, script, n).Running?
    ensures RunTo(opts, seedCost, script, m) == RunTo(opts, seedCost, script, n)
    decreases m - n
  {
    if n < m {
      OnceOver(opts, seedCost, script, n + 1, m);
    }
  }
}
