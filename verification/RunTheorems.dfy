/** Safety of whole runs: for every options record, seed cost, script and number of iterations. */
module RunTheorems {
  import opened Wrappers
  import opened Escalation
  import opened RunLoop
  import opened RunInvariants

  ghost predicate TierInRange(opts: Options, tier: nat) {
    if opts.stratified then 1 <= tier <= 3 else tier == 0
  }

  lemma InitialTracks(opts: Options, seedCost: real)
    ensures TracksTier(opts, Initial(opts, seedCost), TierLog([], None))
  {
  }

  lemma ProcessConverged(opts: Options, s: State, v: AfterStart, next: State)
    requires v.Validated? && ProcessValidation(opts, s, v) == (next, Return(Converged))
    ensures v.score >= opts.threshold && v.written && Converges(opts, s, v)
    ensures next.best == v.score && next.bestFiles == Some(v.files) && next.bestDir == s.bestDir + v.files
    ensures next.activeTier == s.activeTier && next.ladder == s.ladder
  {
  }

  /** The state a validation is judged in. */
  function ServedState(s: State, e: Event): State
    requires HasScore(e)
  {
    var s0 := AddCost(s.(lastImproved := false), e.cost);
    AddCost(if e.startFailed then RecordStall(s0) else s0, e.after.validationCost)
  }

  lemma ConvergedMeansValidated(opts: Options, s: State, e: Event, next: State)
    requires Iterate(opts, s, e) == (next, Return(Converged))
    ensures HasScore(e) && e.after.score >= opts.threshold && e.after.written && Converges(opts, s, e.after)
    ensures next.best == e.after.score && next.bestFiles == Some(e.after.files)
    ensures next.bestDir == s.bestDir + e.after.files
    ensures next.activeTier == s.activeTier && next.ladder == s.ladder
  {
    if HasScore(e) {
      ProcessConverged(opts, ServedState(s, e), e.after, next);
    }
  }

  lemma NextTierTracks(opts: Options, s: State, files: FileSet)
    requires s.bestFiles == Some(files) && Contains(s.bestDir, files) && (s.ladder.Some? <==> opts.frugalModel.Some?)
    ensures TracksTier(opts, NextTier(opts, s), TierLog([], Some(files)))
  {
  }

  /** One loop pass that leaves the run going, seen from the tier's log. */
  lemma PassTracks(opts: Options, s: State, log: TierLog, e: Event, iter: nat)
    requires TracksTier(opts, s, log) && TierInRange(opts, s.activeTier)
    requires LoopBody(opts, s, e, iter).Running?
    ensures var s' := LoopBody(opts, s, e, iter).state;
            var log' := if s'.activeTier != s.activeTier
                        then TierLog([], if HasScore(e) then Some(e.after.files) else None)
                        else log.(events := log.events + [e]);
            && TracksTier(opts, s', log') && TierInRange(opts, s'.activeTier)
            && (s'.activeTier == s.activeTier ==> s'.stallCount < opts.stallLimit)
            && (s'.activeTier == s.activeTier || s'.activeTier == s.activeTier + 1)
  {
    var (next, verdict) := Iterate(opts, s, e);
    if verdict == Continue {
      ContinueTracks(opts, s, log, e, next);
    } else {
      ConvergedMeansValidated(opts, s, e, next);
      NextTierTracks(opts, Escalate(next), e.after.files);
    }
  }

  /**
   In every reachable continuing state the run state says exactly this about the current tier's events: best is the
   largest validated score, bestFiles the set that earned it or the set that converged the previous tier and bestDir
   holds all of it, stallCount the stalls since the last improvement, the escalation state and the patch-mode
   switch what the outcome series determines; and the stall limit has not been reached.
   */
  lemma {:induction false} RunningTracks(opts: Options, seedCost: real, script: nat -> Event, n: nat)
    requires RunTo(opts, seedCost, script, n).Running?
    ensures var s := RunTo(opts, seedCost, script, n).state;
            && TracksTier(opts, s, TierOf(opts, seedCost, script, n))
            && HoldsBest(s, TierOf(opts, seedCost, script, n))
            && TierInRange(opts, s.activeTier)
            && (opts.stallLimit > 0 ==> s.stallCount < opts.stallLimit)
  {
    if n == 0 {
      InitialTracks(opts, seedCost);
    } else {
      RunningTracks(opts, seedCost, script, n - 1);
      var s := RunTo(opts, seedCost, script, n - 1).state;
      PassTracks(opts, s, TierOf(opts, seedCost, script, n - 1), script(n), n);
    }
    TrackedBestHolds(RunTo(opts, seedCost, script, n).state, TierOf(opts, seedCost, script, n));
  }

  // ---- stalls ----

  lemma {:induction false} StallsAreTrailingIterations(d: seq<Event>)
    ensures SumStalls(d) == |d| + CountFellThrough(d)
  {
    if d != [] { StallsAreTrailingIterations(d[..|d| - 1]); }
  }

  /**
   stallCount is the number of iterations since the tier's last improvement, plus one more for each of them that went
   on after a failed container start: it equals the iteration count exactly when no start failed among them.
   */
  lemma StallCountExact(opts: Options, seedCost: real, script: nat -> Event, n: nat)
    requires RunTo(opts, seedCost, script, n).Running?
    ensures var s, d := RunTo(opts, seedCost, script, n).state, Drought(TierOf(opts, seedCost, script, n).events);
            && s.stallCount == |d| + CountFellThrough(d)
            && (s.stallCount == |d| <==> forall e :: e in d ==> !FellThrough(e))
  {
    var d := Drought(TierOf(opts, seedCost, script, n).events);
    RunningTracks(opts, seedCost, script, n);
    StallsAreTrailingIterations(d);
    NoneFellThrough(d);
  }

  lemma {:induction false} NoneFellThrough(d: seq<Event>)
    ensures CountFellThrough(d) == 0 <==> forall e :: e in d ==> !FellThrough(e)
  {
    if d != [] {
      NoneFellThrough(d[..|d| - 1]);
      assert d == d[..|d| - 1] + [d[|d| - 1]];
    }
  }

  /** A failed start that is validated anyway costs two stalls in one iteration. */
  lemma OneIterationTwoStalls(opts: Options, s: State, files: FileSet)
    requires opts.stallLimit >= s.stallCount + 3 && opts.threshold > 0.0 && s.best >= 0.0
    ensures var e := Served(1.0, true, Validated(0.0, map[], files, 0.0, true));
            Iterate(opts, s, e).0.stallCount == s.stallCount + 2
  {
  }

  /** Whatever happens, an iteration that does not improve adds one stall, or two after a failed start. */
  lemma IterationStalls(opts: Options, s: State, e: Event)
    requires Iterate(opts, s, e).1 != Fail && Iterate(opts, s, e).1 != Return(Converged)
    ensures var next := Iterate(opts, s, e).0;
            && (!FellThrough(e) ==> next.stallCount == if next.lastImproved then 0 else s.stallCount + 1)
            && (FellThrough(e) ==> next.stallCount == (if next.lastImproved then 0 else s.stallCount + 2)
                                   || (next.stallCount == s.stallCount + 1 >= opts.stallLimit))
  {
  }

  // ---- convergence ----

  /** Without regression blocking the best score stays below a positive threshold, so converging always raises it. */
  lemma {:induction false} BestBelowThreshold(opts: Options, seedCost: real, script: nat -> Event, n: nat)
    requires !opts.blockOnRegression && opts.threshold > 0.0
    requires RunTo(opts, seedCost, script, n).Running?
    ensures RunTo(opts, seedCost, script, n).state.best < opts.threshold
  {
    if n > 0 {
      BestBelowThreshold(opts, seedCost, script, n - 1);
      PassBest(opts, RunTo(opts, seedCost, script, n - 1).state, script(n), n);
    }
  }

  lemma ProcessBest(opts: Options, s: State, v: AfterStart)
    requires v.Validated? && !opts.blockOnRegression && s.best < opts.threshold
    ensures ProcessValidation(opts, s, v).1 == Continue ==> ProcessValidation(opts, s, v).0.best < opts.threshold
  {
  }

  lemma PassBest(opts: Options, s: State, e: Event, iter: nat)
    requires !opts.blockOnRegression && 0.0 < opts.threshold && s.best < opts.threshold
    ensures LoopBody(opts, s, e, iter).Running? ==> LoopBody(opts, s, e, iter).state.best < opts.threshold
  {
    if HasScore(e) {
      ProcessBest(opts, ServedState(s, e), e.after);
    }
  }

  lemma ConvergenceRaisesBest(opts: Options, seedCost: real, script: nat -> Event, n: nat)
    requires !opts.blockOnRegression && opts.threshold > 0.0 && n > 0
    requires RunTo(opts, seedCost, script, n - 1).Running?
    requires var r := RunTo(opts, seedCost, script, n); r.Finished? && r.status == Converged
    ensures RunTo(opts, seedCost, script, n).final.best > RunTo(opts, seedCost, script, n - 1).state.best
  {
    BestBelowThreshold(opts, seedCost, script, n - 1);
    var s := RunTo(opts, seedCost, script, n - 1).state;
    assert RunTo(opts, seedCost, script, n) == LoopBody(opts, s, script(n), n);
    PassRaisesBest(opts, s, script(n), n);
  }

  lemma PassRaisesBest(opts: Options, s: State, e: Event, iter: nat)
    requires s.best < opts.threshold
    requires var r := LoopBody(opts, s, e, iter); r.Finished? && r.status == Converged
    ensures LoopBody(opts, s, e, iter).final.best > s.best
  {
    PassConverged(opts, s, e, iter);
  }

  lemma PassConverged(opts: Options, s: State, e: Event, iter: nat)
    requires var r := LoopBody(opts, s, e, iter); r.Finished? && r.status == Converged
    ensures LoopBody(opts, s, e, iter).final.best >= opts.threshold
  {
    ConvergedMeansValidated(opts, s, e, Iterate(opts, s, e).0);
  }

  /**
   In a continuing state the best has reached a positive threshold exactly when some validated event of the tier did;
   that event was then blocked.
   */
  lemma ThresholdReachedIff(opts: Options, seedCost: real, script: nat -> Event, n: nat)
    requires opts.threshold > 0.0 && RunTo(opts, seedCost, script, n).Running?
    ensures RunTo(opts, seedCost, script, n).state.best >= opts.threshold <==>
        exists e :: e in TierOf(opts, seedCost, script, n).events && HasScore(e) && e.after.score >= opts.threshold
  {
    RunningTracks(opts, seedCost, script, n);
    var s, log := RunTo(opts, seedCost, script, n).state, TierOf(opts, seedCost, script, n);
    if s.best >= opts.threshold {
      assert log.events[LastImprovement(log.events) - 1] in log.events;
    }
  }

  /** best is above the best of s exactly when it is above every validated score of the tier. */
  ghost predicate RaisesIff(s: State, log: TierLog, best: real) {
    best > s.best <==> forall e :: e in log.events && HasScore(e) ==> e.after.score < best
  }

  /** Converging raises the best exactly when no validated event of the tier scored as much before. */
  lemma ConvergenceRaisesIff(opts: Options, seedCost: real, script: nat -> Event, n: nat)
    requires opts.threshold > 0.0 && n > 0 && RunTo(opts, seedCost, script, n - 1).Running?
    requires var r := RunTo(opts, seedCost, script, n); r.Finished? && r.status == Converged
    ensures RaisesIff(RunTo(opts, seedCost, script, n - 1).state, TierOf(opts, seedCost, script, n - 1),
                      RunTo(opts, seedCost, script, n).final.best)
  {
    var r := LastPass(opts, seedCost, script, n);
    PassConverged(opts, RunTo(opts, seedCost, script, n - 1).state, script(n), n);
    RunningRaises(opts, seedCost, script, n - 1, r.final.best);
  }

  lemma LastPass(opts: Options, seedCost: real, script: nat -> Event, n: nat) returns (r: Run)
    requires n > 0 && RunTo(opts, seedCost, script, n - 1).Running?
    ensures r == RunTo(opts, seedCost, script, n)
    ensures r == LoopBody(opts, RunTo(opts, seedCost, script, n - 1).state, script(n), n)
  {
    r := RunTo(opts, seedCost, script, n);
  }

  lemma RunningRaises(opts: Options, seedCost: real, script: nat -> Event, n: nat, best: real)
    requires RunTo(opts, seedCost, script, n).Running? && best > 0.0
    ensures RaisesIff(RunTo(opts, seedCost, script, n).state, TierOf(opts, seedCost, script, n), best)
  {
    RunningTracks(opts, seedCost, script, n);
    RaisesOver(RunTo(opts, seedCost, script, n).state, TierOf(opts, seedCost, script, n), best);
  }

  lemma RaisesOver(s: State, log: TierLog, best: real)
    requires HoldsBest(s, log) && best > 0.0
    ensures RaisesIff(s, log, best)
  {
    if LastImprovement(log.events) > 0 {
      assert log.events[LastImprovement(log.events) - 1] in log.events;
    }
  }

  /** A validation of one scenario, served at no cost. */
  function Scored(score: real, id: string, scenario: real, files: FileSet): Event {
    Served(0.0, false, Validated(score, map[id := scenario], files, 0.0, true))
  }

  /**
   With regression blocking the best can fall within one run: a scenario passes, then regresses in a validation above
   the threshold, which is blocked; a later, lower one above the threshold converges.
   */
  lemma BlockedBestCanFall(opts: Options, seedCost: real, script: nat -> Event, id: string, files: FileSet,
      low: real, accepted: real, blocked: real, failing: real)
    requires opts.blockOnRegression && !opts.stratified && opts.stallLimit > 0 && opts.budgetUSD <= 0.0
    requires 0.0 < low < opts.threshold <= accepted < blocked && failing < opts.threshold
    requires script(1) == Scored(low, id, opts.threshold, files)
    requires script(2) == Scored(blocked, id, failing, files)
    requires script(3) == Scored(accepted, id, failing, files)
    ensures var before, r := RunTo(opts, seedCost, script, 2), RunTo(opts, seedCost, script, 3);
            && before.Running? && before.state.best == blocked
            && r.Finished? && r.status == Converged && r.final.best == accepted < before.state.best
  {
    var s0 := Initial(opts, seedCost);
    var s1 := FirstPasses(opts, s0, id, files, low, 1);
    assert RunTo(opts, seedCost, script, 0) == Running(s0);
    assert RunTo(opts, seedCost, script, 1) == LoopBody(opts, s0, script(1), 1);
    var s2 := SecondIsBlocked(opts, s1, id, files, blocked, failing, 2);
    assert RunTo(opts, seedCost, script, 2) == LoopBody(opts, s1, script(2), 2);
    ThirdConverges(opts, s2, id, files, accepted, failing, 3);
    assert RunTo(opts, seedCost, script, 3) == LoopBody(opts, s2, script(3), 3);
  }

  lemma FirstPasses(opts: Options, s: State, id: string, files: FileSet, low: real, iter: nat) returns (next: State)
    requires opts.stallLimit > 0 && opts.budgetUSD <= 0.0 && s.best < low < opts.threshold
    ensures LoopBody(opts, s, Scored(low, id, opts.threshold, files), iter) == Running(next)
    ensures next.best == low && next.scenarioScores == map[id := opts.threshold] && next.activeTier == s.activeTier
  {
    next := Escalate(Iterate(opts, s, Scored(low, id, opts.threshold, files)).0);
  }

  lemma SecondIsBlocked(opts: Options, s: State, id: string, files: FileSet, blocked: real, failing: real, iter: nat)
      returns (next: State)
    requires opts.blockOnRegression && opts.stallLimit > 0 && opts.budgetUSD <= 0.0
    requires s.best < blocked && failing < opts.threshold && s.scenarioScores == map[id := opts.threshold]
    ensures LoopBody(opts, s, Scored(blocked, id, failing, files), iter) == Running(next)
    ensures next.best == blocked && next.scenarioScores == map[id := failing] && next.activeTier == s.activeTier
  {
    assert id in Regressions(s.scenarioScores, map[id := failing], opts.threshold);
    next := Escalate(Iterate(opts, s, Scored(blocked, id, failing, files)).0);
  }

  lemma ThirdConverges(opts: Options, s: State, id: string, files: FileSet, accepted: real, failing: real, iter: nat)
    requires opts.budgetUSD <= 0.0 && s.activeTier == 0 && opts.threshold <= accepted && failing < opts.threshold
    requires s.scenarioScores == map[id := failing]
    ensures var r := LoopBody(opts, s, Scored(accepted, id, failing, files), iter);
            r.Finished? && r.status == Converged && r.final.best == accepted
  {
    assert Regressions(s.scenarioScores, map[id := failing], opts.threshold) == {};
  }

  // ---- tiers ----

  /** Tiers only ever go up by one, and only by converging; a run reports convergence only outside tiers 1 and 2. */
  lemma TierDiscipline(opts: Options, seedCost: real, script: nat -> Event, n: nat)
    requires n > 0 && RunTo(opts, seedCost, script, n - 1).Running?
    ensures var s, r := RunTo(opts, seedCost, script, n - 1).state, RunTo(opts, seedCost, script, n);
            && (r.Running? ==>
                  r.state.activeTier == s.activeTier
                  || (r.state.activeTier == s.activeTier + 1 && HasScore(script(n))
                       && Converges(opts, s, script(n).after)))
            && (r.Finished? && r.status == Converged ==>
                  r.final.activeTier == s.activeTier == (if opts.stratified then 3 else 0)
                  && r.final.best >= opts.threshold)
  {
    RunningTracks(opts, seedCost, script, n - 1);
    PassTiers(opts, RunTo(opts, seedCost, script, n - 1).state, script(n), n);
  }

  lemma PassTiers(opts: Options, s: State, e: Event, iter: nat)
    requires TierInRange(opts, s.activeTier)
    ensures var r := LoopBody(opts, s, e, iter);
            && (r.Running? ==>
                  r.state.activeTier == s.activeTier
                  || (r.state.activeTier == s.activeTier + 1 && HasScore(e) && Converges(opts, s, e.after)))
            && (r.Finished? && r.status == Converged ==>
                  r.final.activeTier == s.activeTier == (if opts.stratified then 3 else 0)
                  && r.final.best >= opts.threshold)
  {
    var (next, verdict) := Iterate(opts, s, e);
    if verdict == Continue {
      ContinueEffect(opts, s, e, next);
    } else if verdict == Return(Converged) {
      ConvergedMeansValidated(opts, s, e, next);
    }
  }

  // ---- budget ----

  /** What an iteration may cost at most. */
  function EventCost(e: Event): real {
    match e
    case GenerateError => 0.0
    case NotServed(cost) => cost
    case Served(cost, _, after) => cost + if after.Validated? then after.validationCost else 0.0
  }

  predicate CostsNonNegative(e: Event) {
    match e
    case GenerateError => true
    case NotServed(cost) => cost >= 0.0
    case Served(cost, _, after) => cost >= 0.0 && (after.Validated? ==> after.validationCost >= 0.0)
  }

  /** Validation is paid for unless a failed start already ended the run. */
  lemma IterationCharges(opts: Options, s: State, e: Event)
    requires CostsNonNegative(e)
    ensures var next := Iterate(opts, s, e).0;
            && s.totalCost <= next.totalCost <= s.totalCost + EventCost(e)
            && (!e.GenerateError? && !(FellThrough(e) && s.stallCount + 1 >= opts.stallLimit)
                ==> next.totalCost == s.totalCost + EventCost(e))
  {
    if HasScore(e) {
      ValidationIsFree(opts, ServedState(s, e), e.after);
    }
  }

  lemma ValidationIsFree(opts: Options, s: State, v: AfterStart)
    requires v.Validated?
    ensures ProcessValidation(opts, s, v).0.totalCost == s.totalCost
  {
  }

  /** What the first n iterations of the script cost, whatever the run state says. */
  function Spent(script: nat -> Event, n: nat): real {
    if n == 0 then 0.0 else Spent(script, n - 1) + EventCost(script(n))
  }

  /** None of the first n iterations began with the budget already spent. */
  ghost predicate BegunWithinBudget(opts: Options, seedCost: real, script: nat -> Event, n: nat) {
    opts.budgetUSD > 0.0 ==> forall i :: 0 <= i < n ==> seedCost + Spent(script, i) < opts.budgetUSD
  }

  /** An iteration that neither fails nor ends the run short of converging has charged all it costs. */
  lemma IterationSpends(opts: Options, s: State, e: Event)
    requires Iterate(opts, s, e).1 == Continue || Iterate(opts, s, e).1 == Return(Converged)
    ensures Iterate(opts, s, e).0.totalCost == s.totalCost + EventCost(e)
  {
    if HasScore(e) {
      ValidationIsFree(opts, ServedState(s, e), e.after);
    }
  }

  /** So has a pass that goes on, into the next tier or not. */
  lemma PassSpends(opts: Options, s: State, e: Event, iter: nat, r: Run)
    requires r == LoopBody(opts, s, e, iter) && r.Running?
    ensures r.state.totalCost == s.totalCost + EventCost(e)
    ensures opts.budgetUSD > 0.0 ==> s.totalCost < opts.budgetUSD
  {
    IterationSpends(opts, s, e);
  }

  /** Over all tiers, the spend on record is the seeded cost and everything the iterations cost. */
  lemma {:induction false} SpendIsTracked(opts: Options, seedCost: real, script: nat -> Event, n: nat)
    requires RunTo(opts, seedCost, script, n).Running?
    ensures RunTo(opts, seedCost, script, n).state.totalCost == seedCost + Spent(script, n)
    ensures BegunWithinBudget(opts, seedCost, script, n)
  {
    if n > 0 {
      SpendIsTracked(opts, seedCost, script, n - 1);
      var r := LastPass(opts, seedCost, script, n);
      PassSpends(opts, RunTo(opts, seedCost, script, n - 1).state, script(n), n, r);
    }
  }

  /** A finished run has spent what its iterations cost, save the validation a failed start spared it at the end. */
  ghost predicate SpentExactly(seedCost: real, script: nat -> Event, r: Run)
    requires r.Finished? && r.iterations >= 0
  {
    if r.iterations > 0 && r.status == Stalled && FellThrough(script(r.iterations))
    then r.final.totalCost == seedCost + Spent(script, r.iterations - 1) + script(r.iterations).cost
         || r.final.totalCost == seedCost + Spent(script, r.iterations)
    else r.final.totalCost == seedCost + Spent(script, r.iterations)
  }

  lemma StopCharges(opts: Options, s: State, e: Event, status: Status)
    requires Iterate(opts, s, e).1 == Return(status)
    ensures var next := Iterate(opts, s, e).0;
            next.totalCost == s.totalCost + EventCost(e)
            || (status == Stalled && FellThrough(e) && next.totalCost == s.totalCost + e.cost)
  {
    if HasScore(e) {
      ValidationIsFree(opts, ServedState(s, e), e.after);
    }
  }

  /** A pass that ends the run either found the budget spent before it began, or ran its iteration under budget. */
  lemma PassFinishes(opts: Options, s: State, e: Event, iter: nat)
    requires LoopBody(opts, s, e, iter).Finished?
    ensures var r := LoopBody(opts, s, e, iter);
            && (r.iterations == iter - 1 ==> r.final == s && OverBudget(opts, s) && r.status == BudgetExceeded)
            && (r.iterations != iter - 1 ==>
                  && r.iterations == iter && !OverBudget(opts, s)
                  && (r.final.totalCost == s.totalCost + EventCost(e)
                      || (r.status == Stalled && FellThrough(e) && r.final.totalCost == s.totalCost + e.cost))
                  && (r.status == Stalled ==> r.final.stallCount >= opts.stallLimit)
                  && (r.status == BudgetExceeded ==> OverBudget(opts, r.final))
                  && r.status != MaxIterations)
  {
    VerdictMeans(opts, s, e);
    var verdict := Iterate(opts, s, e).1;
    if verdict.Return? {
      StopCharges(opts, s, e, verdict.status);
    }
  }

  lemma VerdictMeans(opts: Options, s: State, e: Event)
    ensures var (next, verdict) := Iterate(opts, s, e);
            && (verdict == Return(Stalled) ==> next.stallCount >= opts.stallLimit)
            && (verdict == Return(BudgetExceeded) ==> OverBudget(opts, next))
            && verdict != Return(MaxIterations)
  {
  }

  /**
   Every finished run stays within its iteration limit, never began an iteration with the budget spent, and reports
   exactly what it spent, over all its tiers.
   */
  lemma {:induction false} FinishedRunBounds(opts: Options, seedCost: real, script: nat -> Event, n: nat)
    requires RunTo(opts, seedCost, script, n).Finished?
    ensures var r := RunTo(opts, seedCost, script, n);
            && 0 <= r.iterations <= n && SpentExactly(seedCost, script, r)
            && BegunWithinBudget(opts, seedCost, script, r.iterations)
            && (r.status == Stalled ==> r.final.stallCount >= opts.stallLimit)
            && (r.status == BudgetExceeded ==> opts.budgetUSD > 0.0 && r.final.totalCost >= opts.budgetUSD)
            && r.status != MaxIterations
  {
    if n > 0 {
      if RunTo(opts, seedCost, script, n - 1).Finished? {
        FinishedRunBounds(opts, seedCost, script, n - 1);
      } else {
        JustFinished(opts, seedCost, script, n, RunTo(opts, seedCost, script, n - 1).state);
      }
    }
  }

  lemma JustFinished(opts: Options, seedCost: real, script: nat -> Event, n: nat, s: State)
    requires n > 0 && RunTo(opts, seedCost, script, n - 1) == Running(s) && LoopBody(opts, s, script(n), n).Finished?
    ensures var r := LoopBody(opts, s, script(n), n);
            && n - 1 <= r.iterations <= n && SpentExactly(seedCost, script, r)
            && BegunWithinBudget(opts, seedCost, script, r.iterations)
            && (r.status == Stalled ==> r.final.stallCount >= opts.stallLimit)
            && (r.status == BudgetExceeded ==> OverBudget(opts, r.final))
            && r.status != MaxIterations
  {
    PassFinishes(opts, s, script(n), n);
    SpendIsTracked(opts, seedCost, script, n - 1);
    FinishSpends(opts, seedCost, script, n, s, LoopBody(opts, s, script(n), n));
  }

  lemma FinishSpends(opts: Options, seedCost: real, script: nat -> Event, n: nat, s: State, r: Run)
    requires n > 0 && BegunWithinBudget(opts, seedCost, script, n - 1) && r.Finished?
    requires s.totalCost == seedCost + Spent(script, n - 1)
    requires r.iterations == n - 1 ==> r.final == s && r.status == BudgetExceeded
    requires r.iterations != n - 1 ==>
               r.iterations == n && !OverBudget(opts, s) && (r.final.totalCost == s.totalCost + EventCost(script(n))
               || (r.status == Stalled && FellThrough(script(n)) && r.final.totalCost == s.totalCost + script(n).cost))
    ensures SpentExactly(seedCost, script, r) && BegunWithinBudget(opts, seedCost, script, r.iterations)
  {
  }

  /**
   The whole loop: at most maxIterations iterations over all tiers, none of them begun with the budget spent, and what
   is reported as spent is what they cost.
   */
  lemma RunAllBounds(opts: Options, seedCost: real, script: nat -> Event)
    ensures var r := RunAll(opts, seedCost, script);
            && !r.Running?
            && (r.Finished? && r.iterations <= 0 ==> r.final.totalCost == seedCost)
            && (r.Finished? && r.iterations > 0 ==>
                  && r.iterations <= opts.maxIterations
                  && SpentExactly(seedCost, script, r)
                  && BegunWithinBudget(opts, seedCost, script, r.iterations))
  {
    var n := if opts.maxIterations > 0 then opts.maxIterations else 0;
    var r := RunTo(opts, seedCost, script, n);
    if r.Finished? {
      FinishedRunBounds(opts, seedCost, script, n);
    } else if r.Running? {
      SpendIsTracked(opts, seedCost, script, n);
    }
  }

  /** So with a budget a run overspends by less than its last iteration costs. */
  lemma OverspendsByOneIteration(opts: Options, seedCost: real, script: nat -> Event)
    requires opts.budgetUSD > 0.0 && forall i :: CostsNonNegative(script(i))
    ensures var r := RunAll(opts, seedCost, script);
            r.Finished? && r.iterations > 0 ==>
              && r.final.totalCost <= seedCost + Spent(script, r.iterations)
              && seedCost + Spent(script, r.iterations) < opts.budgetUSD + EventCost(script(r.iterations))
  {
    RunAllBounds(opts, seedCost, script);
  }
}
