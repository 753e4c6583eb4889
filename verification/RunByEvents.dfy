/**
 The run told by its events alone: from the current tier's events, the spend so far and the next event it follows
 whether the run goes on, moves to the next tier, ends and how, and what it then reports.
 */
module RunByEvents {
  import opened Wrappers
  import opened RunLoop
  import opened RunInvariants
  import opened RunTheorems

  ghost predicate Spends(opts: Options, spent: real) {
    opts.budgetUSD > 0.0 && spent >= opts.budgetUSD
  }

  /** Stalls since the last improvement. */
  ghost function StallsSoFar(h: seq<Event>): nat {
    SumStalls(Drought(h))
  }

  /** The container was asked to start, and a failed start did not reach the stall limit. */
  ghost predicate PastStart(opts: Options, h: seq<Event>, e: Event) {
    e.Served? && (e.startFailed ==> StallsSoFar(h) + 1 < opts.stallLimit)
  }

  ghost predicate Judged(opts: Options, h: seq<Event>, e: Event) {
    PastStart(opts, h, e) && e.after.Validated?
  }

  /** A scenario that was at the threshold in the tier's last validation has fallen below it. */
  ghost predicate Regressed(opts: Options, h: seq<Event>, e: Event)
    requires HasScore(e)
  {
    var prev, curr := LastScores(h), e.after.scenarios;
    exists id :: id in prev && id in curr && prev[id] >= opts.threshold && curr[id] < opts.threshold
  }

  ghost predicate Accepted(opts: Options, h: seq<Event>, e: Event) {
    && Judged(opts, h, e) && e.after.score >= opts.threshold
    && !(opts.blockOnRegression && Regressed(opts, h, e))
  }

  ghost predicate Bettered(opts: Options, h: seq<Event>, e: Event) {
    Judged(opts, h, e) && !Accepted(opts, h, e) && e.after.score > BestOf(h)
  }

  /** Generation failed, the validator failed, or the best files could not be written. */
  ghost predicate Errs(opts: Options, h: seq<Event>, e: Event) {
    || e.GenerateError?
    || (PastStart(opts, h, e) && e.after.ServeError?)
    || ((Accepted(opts, h, e) || Bettered(opts, h, e)) && !e.after.written)
  }

  /** Stalls on record once e is over. */
  ghost function StallsThen(opts: Options, h: seq<Event>, e: Event): nat {
    if Bettered(opts, h, e) then 0
    else StallsSoFar(h) + if PastStart(opts, h, e) && e.startFailed then 2 else 1
  }

  /** What e has charged when it is over: validation only if it came to it. */
  ghost function Charged(opts: Options, h: seq<Event>, e: Event): real {
    match e
    case GenerateError => 0.0
    case NotServed(cost) => cost
    case Served(cost, _, after) => cost + if Judged(opts, h, e) then after.validationCost else 0.0
  }

  // ---- one pass ----

  /** The ways a pass can end the run or move it on. */
  datatype Course = GoesOn | MovesOn | Errors | Ends(status: Status)

  ghost predicate StallsOut(opts: Options, h: seq<Event>, e: Event) {
    !Errs(opts, h, e) && !Accepted(opts, h, e) && StallsThen(opts, h, e) >= opts.stallLimit
  }

  ghost predicate RunsDry(opts: Options, spent: real, h: seq<Event>, e: Event) {
    && !Errs(opts, h, e) && !Accepted(opts, h, e) && StallsThen(opts, h, e) < opts.stallLimit
    && Judged(opts, h, e) && Spends(opts, spent + Charged(opts, h, e))
  }

  ghost function CourseOf(opts: Options, tier: nat, spent: real, h: seq<Event>, e: Event): Course {
    if Spends(opts, spent) then Ends(BudgetExceeded)
    else if Errs(opts, h, e) then Errors
    else if Accepted(opts, h, e) then if tier == 1 || tier == 2 then MovesOn else Ends(Converged)
    else if StallsOut(opts, h, e) then Ends(Stalled)
    else if RunsDry(opts, spent, h, e) then Ends(BudgetExceeded)
    else GoesOn
  }

  /** The score a pass leaves as the best. */
  ghost function BestThen(opts: Options, h: seq<Event>, e: Event): real {
    if Accepted(opts, h, e) || Bettered(opts, h, e) then e.after.score else BestOf(h)
  }

  /** r is what a pass with this course makes of the run. */
  ghost predicate Follows(opts: Options, s: State, spent: real, log: TierLog, e: Event, iter: nat, r: Run) {
    var h := log.events;
    match CourseOf(opts, s.activeTier, spent, h, e)
    case Errors => r.Failed?
    case GoesOn => r.Running? && r.state.activeTier == s.activeTier && Leaves(opts, s, h, e, r.state)
    case MovesOn =>
      && r.Running? && r.state.activeTier == s.activeTier + 1 && r.state.best == 0.0
      && r.state.bestFiles == Some(e.after.files) && r.state.bestDir == s.bestDir + e.after.files
    case Ends(status) =>
      && r.Finished? && r.status == status
      && if Spends(opts, spent) then r.iterations == iter - 1 && r.final == s
         else r.iterations == iter && r.final.totalCost == spent + Charged(opts, h, e)
              && Leaves(opts, s, h, e, r.final)
  }

  /** The best score, the best files and the best directory once e is over. */
  ghost predicate Leaves(opts: Options, s: State, h: seq<Event>, e: Event, next: State) {
    && next.best == BestThen(opts, h, e)
    && if Accepted(opts, h, e) || Bettered(opts, h, e)
       then next.bestFiles == Some(e.after.files) && next.bestDir == s.bestDir + e.after.files
       else next.bestFiles == s.bestFiles && next.bestDir == s.bestDir
  }

  lemma StartedState(opts: Options, s: State, log: TierLog, e: Event)
    requires TracksTier(opts, s, log) && HasScore(e) && PastStart(opts, log.events, e)
    ensures Iterate(opts, s, e) == ProcessValidation(opts, ServedState(s, e), e.after)
    ensures ServedState(s, e).stallCount == StallsSoFar(log.events) + if e.startFailed then 1 else 0
  {
  }

  lemma ConvergesIff(opts: Options, s: State, log: TierLog, e: Event)
    requires TracksTier(opts, s, log) && Judged(opts, log.events, e)
    ensures Converges(opts, ServedState(s, e), e.after) <==> Accepted(opts, log.events, e)
  {
    var prev, curr := LastScores(log.events), e.after.scenarios;
    forall id ensures id in Regressions(prev, curr, opts.threshold) <==>
        id in prev && id in curr && prev[id] >= opts.threshold && curr[id] < opts.threshold
    {
    }
  }

  /** A validated iteration, by the tier's events. */
  lemma JudgedPass(opts: Options, s: State, log: TierLog, e: Event, next: State, verdict: Verdict)
    requires TracksTier(opts, s, log) && Judged(opts, log.events, e) && Iterate(opts, s, e) == (next, verdict)
    ensures var h := log.events;
            && (verdict == Fail <==> Errs(opts, h, e))
            && (verdict == Return(Converged) <==> Accepted(opts, h, e) && e.after.written)
            && (verdict != Fail ==> next.totalCost == s.totalCost + EventCost(e) && Leaves(opts, s, h, e, next))
            && (verdict != Fail && !Accepted(opts, h, e) ==>
                  verdict == if StallsThen(opts, h, e) >= opts.stallLimit then Return(Stalled)
                             else if Spends(opts, s.totalCost + EventCost(e)) then Return(BudgetExceeded) else Continue)
  {
    StartedState(opts, s, log, e);
    ConvergesIff(opts, s, log, e);
    ProcessedAs(opts, ServedState(s, e), e.after, next, verdict);
  }

  /** The validation's outcome in the state it is judged in. */
  lemma ProcessedAs(opts: Options, s: State, v: AfterStart, next: State, verdict: Verdict)
    requires v.Validated? && ProcessValidation(opts, s, v) == (next, verdict)
    ensures verdict == Fail <==> (Converges(opts, s, v) || v.score > s.best) && !v.written
    ensures verdict == Return(Converged) <==> Converges(opts, s, v) && v.written
    ensures verdict != Fail ==> next.totalCost == s.totalCost
    ensures verdict != Fail && (Converges(opts, s, v) || v.score > s.best) ==>
              next.best == v.score && next.bestFiles == Some(v.files) && next.bestDir == s.bestDir + v.files
    ensures verdict != Fail && !Converges(opts, s, v) && v.score <= s.best ==>
              next.best == s.best && next.bestFiles == s.bestFiles && next.bestDir == s.bestDir
    ensures verdict != Fail && !Converges(opts, s, v) ==>
              var stalls := if v.score > s.best then 0 else s.stallCount + 1;
              verdict == if stalls >= opts.stallLimit then Return(Stalled)
                         else if Spends(opts, s.totalCost) then Return(BudgetExceeded) else Continue
  {
  }

  /** Any other iteration. */
  lemma UnjudgedPass(opts: Options, s: State, log: TierLog, e: Event, next: State, verdict: Verdict)
    requires TracksTier(opts, s, log) && !Judged(opts, log.events, e) && Iterate(opts, s, e) == (next, verdict)
    ensures var h := log.events;
            && (verdict == Fail <==> Errs(opts, h, e))
            && (verdict != Fail ==>
                  && next.totalCost == s.totalCost + Charged(opts, h, e) && Leaves(opts, s, h, e, next)
                  && verdict == if StallsThen(opts, h, e) >= opts.stallLimit then Return(Stalled) else Continue)
  {
  }

  lemma EscalateKeeps(s: State)
    ensures Escalate(s).totalCost == s.totalCost && Escalate(s).activeTier == s.activeTier
    ensures Escalate(s).best == s.best && Escalate(s).bestFiles == s.bestFiles && Escalate(s).bestDir == s.bestDir
  {
  }

  lemma IterateKeepsTier(opts: Options, s: State, e: Event)
    ensures Iterate(opts, s, e).0.activeTier == s.activeTier
  {
  }

  /** One pass, for any state that is in step with the tier's events. */
  lemma PassFollows(opts: Options, s: State, spent: real, log: TierLog, e: Event, iter: nat, r: Run)
    requires TracksTier(opts, s, log) && TierInRange(opts, s.activeTier) && s.totalCost == spent
    requires r == LoopBody(opts, s, e, iter)
    ensures Follows(opts, s, spent, log, e, iter, r)
  {
    if !Spends(opts, spent) {
      var (next, verdict) := Iterate(opts, s, e);
      EscalateKeeps(next);
      IterateKeepsTier(opts, s, e);
      if Judged(opts, log.events, e) {
        JudgedPass(opts, s, log, e, next, verdict);
      } else {
        UnjudgedPass(opts, s, log, e, next, verdict);
      }
    }
  }

  // ---- whole runs ----

  /**
   Every pass of every run follows from the script: the tier's events, and what the iterations so far have cost, decide
   whether the run errs, goes on, moves on or ends, with which status, cost and score.
   */
  lemma RunFollows(opts: Options, seedCost: real, script: nat -> Event, n: nat, s: State, spent: real, log: TierLog,
                   r: Run)
    requires RunTo(opts, seedCost, script, n) == Running(s) && r == RunTo(opts, seedCost, script, n + 1)
    requires spent == seedCost + Spent(script, n) && log == TierOf(opts, seedCost, script, n)
    ensures Follows(opts, s, spent, log, script(n + 1), n + 1, r)
  {
    NextIs(opts, seedCost, script, n, s);
    NextFollows(opts, seedCost, script, n, s, spent, log, r);
  }

  lemma NextIs(opts: Options, seedCost: real, script: nat -> Event, n: nat, s: State)
    requires RunTo(opts, seedCost, script, n) == Running(s)
    ensures RunTo(opts, seedCost, script, n + 1) == LoopBody(opts, s, script(n + 1), n + 1)
  {
  }

  lemma NextFollows(opts: Options, seedCost: real, script: nat -> Event, n: nat, s: State, spent: real, log: TierLog,
                    r: Run)
    requires RunTo(opts, seedCost, script, n) == Running(s) && r == LoopBody(opts, s, script(n + 1), n + 1)
    requires spent == seedCost + Spent(script, n) && log == TierOf(opts, seedCost, script, n)
    ensures Follows(opts, s, spent, log, script(n + 1), n + 1, r)
  {
    InStep(opts, seedCost, script, n, s, spent, log);
    PassFollows(opts, s, spent, log, script(n + 1), n + 1, r);
  }

  lemma InStep(opts: Options, seedCost: real, script: nat -> Event, n: nat, s: State, spent: real, log: TierLog)
    requires RunTo(opts, seedCost, script, n) == Running(s)
    requires spent == seedCost + Spent(script, n) && log == TierOf(opts, seedCost, script, n)
    ensures TracksTier(opts, s, log) && TierInRange(opts, s.activeTier) && s.totalCost == spent
  {
    RunningTracks(opts, seedCost, script, n);
    SpendIsTracked(opts, seedCost, script, n);
  }

  /** The run is over at its first pass that does not go on, or after maxIterations passes that all did. */
  lemma RunEnds(opts: Options, seedCost: real, script: nat -> Event) returns (n: nat)
    ensures forall k :: 0 <= k < n ==> RunTo(opts, seedCost, script, k).Running?
    ensures n <= if opts.maxIterations > 0 then opts.maxIterations else 0
    ensures var last := RunTo(opts, seedCost, script, n);
            if last.Running? then
              n == (if opts.maxIterations > 0 then opts.maxIterations else 0)
              && RunAll(opts, seedCost, script) == Finished(last.state, MaxIterations, opts.maxIterations)
            else RunAll(opts, seedCost, script) == last
  {
    n := 0;
    var limit := if opts.maxIterations > 0 then opts.maxIterations else 0;
    while n < limit && RunTo(opts, seedCost, script, n).Running?
      invariant n <= limit && forall k :: 0 <= k < n ==> RunTo(opts, seedCost, script, k).Running?
    {
      n := n + 1;
    }
    if !RunTo(opts, seedCost, script, n).Running? {
      OnceOver(opts, seedCost, script, n, limit);
    }
  }

  /** Where a run starts: the seeded cost, nothing achieved, the first tier if tiers are on. */
  lemma RunStarts(opts: Options, seedCost: real, script: nat -> Event)
    ensures var r := RunTo(opts, seedCost, script, 0);
            && r.Running? && r.state.totalCost == seedCost && r.state.best == 0.0 && r.state.bestFiles == None
            && r.state.activeTier == (if opts.stratified then 1 else 0) && r.state.stallCount == 0
    ensures TierOf(opts, seedCost, script, 0).events == []
  {
  }
}
