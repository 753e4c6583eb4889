/** How escalation and stalling are tied together over whole runs. */
module StallTheorems {
  import opened Wrappers
  import opened Escalation
  import opened RunLoop
  import opened RunInvariants
  import RunTheorems

  /** The trailing failures the escalation state counts are the iterations since the last improvement. */
  lemma {:induction false} TrailingIsDrought(h: seq<Event>)
    ensures Trailing(Outcomes(h), false) == |Drought(h)|
  {
    if h != [] {
      var init, e := h[..|h| - 1], h[|h| - 1];
      assert h == init + [e];
      TrailingIsDrought(init);
      OutcomesStep(init, e);
      LastImprovementStep(init, e);
      assert Outcomes(h)[..|h| - 1] == Outcomes(init);
    }
  }

  /**
   In every continuing state: on the frugal tier the stall count is the escalation state's failure count, which is at
   most 1, plus the failed starts that were validated anyway; on the primary tier it is that, or two more exactly while
   the last improvement was made on the frugal tier, that is, until the first improvement after escalating.
   */
  lemma StallsAgainstFailures(opts: Options, seedCost: real, script: nat -> Event, n: nat)
    requires RunTo(opts, seedCost, script, n).Running?
    requires RunTo(opts, seedCost, script, n).state.ladder.Some?
    ensures var s := RunTo(opts, seedCost, script, n).state;
            var l, h := s.ladder.value, TierOf(opts, seedCost, script, n).events;
            var extra := CountFellThrough(Drought(h));
            && (l.tier == Frugal ==> l.failures <= 1 && s.stallCount == l.failures + extra)
            && (l.tier == Primary ==> s.stallCount == l.failures + extra || s.stallCount == l.failures + 2 + extra)
            && (l.tier == Primary ==>
                  (s.stallCount == l.failures + 2 + extra <==> After(Outcomes(h)[..LastImprovement(h)]).tier == Frugal))
            && (l.tier == Primary && l.improvements > 0 ==> s.stallCount == l.failures == 0)
  {
    var h := TierOf(opts, seedCost, script, n).events;
    RunTheorems.RunningTracks(opts, seedCost, script, n);
    RunTheorems.StallCountExact(opts, seedCost, script, n);
    TrailingIsDrought(h);
    CountersFollowOutcomes(Outcomes(h));
    var l := RunTo(opts, seedCost, script, n).state.ladder.value;
    if l.tier == Primary && l.improvements > 0 {
      assert Outcomes(h)[|h| - 1];
    }
  }

  /** The primary tier is entered only on the second failure in a row. */
  lemma EnteringPrimary(outcomes: seq<bool>)
    requires outcomes != [] && After(outcomes[..|outcomes| - 1]).tier == Frugal && After(outcomes).tier == Primary
    ensures Trailing(outcomes, false) == ESCALATE_AFTER_FAILURES
  {
    CountersFollowOutcomes(outcomes[..|outcomes| - 1]);
    CountersFollowOutcomes(outcomes);
  }

  /** The pass that escalates leaves at least two stalls behind. */
  lemma PassEscalates(opts: Options, s: State, log: TierLog, e: Event, iter: nat)
    requires TracksTier(opts, s, log) && RunTheorems.TierInRange(opts, s.activeTier)
    requires LoopBody(opts, s, e, iter).Running?
    requires s.ladder.Some? && s.ladder.value.tier == Frugal
    requires var next := LoopBody(opts, s, e, iter).state; next.ladder.Some? && next.ladder.value.tier == Primary
    ensures 2 <= LoopBody(opts, s, e, iter).state.stallCount < opts.stallLimit
  {
    var h := log.events;
    RunTheorems.PassTracks(opts, s, log, e, iter);
    var b := Outcomes(h + [e]);
    OutcomesStep(h, e);
    assert b[..|b| - 1] == Outcomes(h);
    TrailingIsDrought(h + [e]);
    RunTheorems.StallsAreTrailingIterations(Drought(h + [e]));
    EnteringPrimary(b);
  }

  /** At the last stall before the limit, only an improvement or a converged tier keeps the run going. */
  lemma LastChance(opts: Options, s: State, e: Event, iter: nat)
    requires s.stallCount + 1 >= opts.stallLimit && LoopBody(opts, s, e, iter).Running?
    ensures var next := LoopBody(opts, s, e, iter).state;
            HasScore(e) && (next.activeTier == s.activeTier + 1 || (next.lastImproved && next.best > s.best))
  {
    var (next, verdict) := Iterate(opts, s, e);
    if verdict == Continue {
      ContinueEffect(opts, s, e, next);
    } else {
      RunTheorems.ConvergedMeansValidated(opts, s, e, next);
    }
  }

  /** Every pass of the script keeps inv. */
  ghost predicate KeptByPasses(opts: Options, script: nat -> Event, inv: State -> bool) {
    forall k: nat, a, b {:trigger LoopBody(opts, a, script(k), k), inv(b)} ::
      inv(a) && LoopBody(opts, a, script(k), k) == Running(b) ==> inv(b)
  }

  /** Induction over a run: what holds at the start and survives every pass holds in every continuing state. */
  lemma {:induction false} RunInduction(opts: Options, seedCost: real, script: nat -> Event, inv: State -> bool,
                                        n: nat, s: State)
    requires inv(Initial(opts, seedCost)) && KeptByPasses(opts, script, inv)
    requires RunTo(opts, seedCost, script, n) == Running(s)
    ensures inv(s)
  {
    if n > 0 {
      var before := Predecessor(opts, seedCost, script, n, s);
      RunInduction(opts, seedCost, script, inv, n - 1, before);
      KeptOnce(opts, script, inv, n, before, s);
    }
  }

  lemma KeptOnce(opts: Options, script: nat -> Event, inv: State -> bool, n: nat, before: State, s: State)
    requires KeptByPasses(opts, script, inv) && inv(before) && LoopBody(opts, before, script(n), n) == Running(s)
    ensures inv(s)
  {
  }

  lemma Predecessor(opts: Options, seedCost: real, script: nat -> Event, n: nat, s: State) returns (before: State)
    requires n > 0 && RunTo(opts, seedCost, script, n) == Running(s)
    ensures RunTo(opts, seedCost, script, n - 1) == Running(before)
    ensures LoopBody(opts, before, script(n), n) == Running(s)
  {
    before := RunTo(opts, seedCost, script, n - 1).state;
  }

  ghost predicate FrugalSoFar(opts: Options, s: State) {
    && RunTheorems.TierInRange(opts, s.activeTier)
    && (s.ladder.Some? ==> s.ladder.value.tier == Frugal)
    && exists log :: TracksTier(opts, s, log)
  }

  /** A pass that may not leave two stalls behind does not escalate. */
  lemma PassStaysFrugal(opts: Options, s: State, log: TierLog, e: Event, iter: nat, next: State)
    requires 0 < opts.stallLimit <= 2
    requires TracksTier(opts, s, log) && RunTheorems.TierInRange(opts, s.activeTier) && s.ladder.Some?
    requires s.ladder.value.tier == Frugal && LoopBody(opts, s, e, iter) == Running(next) && next.ladder.Some?
    ensures next.ladder.value.tier == Frugal
  {
    if next.ladder.value.tier == Primary {
      PassEscalates(opts, s, log, e, iter);
    }
  }

  lemma PassKeepsFrugal(opts: Options, s: State, e: Event, iter: nat, next: State)
    requires 0 < opts.stallLimit <= 2
    requires FrugalSoFar(opts, s) && LoopBody(opts, s, e, iter) == Running(next)
    ensures FrugalSoFar(opts, next)
  {
    var log :| TracksTier(opts, s, log);
    var _ := PassLog(opts, s, log, e, iter, next);
    if next.ladder.Some? {
      PassStaysFrugal(opts, s, log, e, iter, next);
    }
  }

  lemma PassLog(opts: Options, s: State, log: TierLog, e: Event, iter: nat, next: State) returns (log': TierLog)
    requires TracksTier(opts, s, log) && RunTheorems.TierInRange(opts, s.activeTier)
    requires LoopBody(opts, s, e, iter) == Running(next)
    ensures TracksTier(opts, next, log') && RunTheorems.TierInRange(opts, next.activeTier)
    ensures next.ladder.Some? <==> s.ladder.Some?
  {
    RunTheorems.PassTracks(opts, s, log, e, iter);
    log' := if next.activeTier != s.activeTier
            then TierLog([], if HasScore(e) then Some(e.after.files) else None)
            else log.(events := log.events + [e]);
  }

  /** With a stall limit of 1 or 2 no iteration is ever given another model than the frugal one, if there is one. */
  lemma SmallLimitStaysFrugal(opts: Options, seedCost: real, script: nat -> Event, n: nat, s: State)
    requires 0 < opts.stallLimit <= 2
    requires RunTo(opts, seedCost, script, n) == Running(s)
    ensures s.ladder.Some? ==> s.ladder.value.tier == Frugal
    ensures opts.frugalModel.Some? ==> ModelFor(opts, s) == opts.frugalModel.value
  {
    RunTheorems.InitialTracks(opts, seedCost);
    forall k: nat, a, b | FrugalSoFar(opts, a) && LoopBody(opts, a, script(k), k) == Running(b)
      ensures FrugalSoFar(opts, b)
    {
      PassKeepsFrugal(opts, a, script(k), k, b);
    }
    RunInduction(opts, seedCost, script, s => FrugalSoFar(opts, s), n, s);
  }

  lemma PassBetween(opts: Options, seedCost: real, script: nat -> Event, n: nat, s: State, next: State)
    requires RunTo(opts, seedCost, script, n) == Running(s) && RunTo(opts, seedCost, script, n + 1) == Running(next)
    ensures LoopBody(opts, s, script(n + 1), n + 1) == Running(next)
  {
  }

  /** The events of the tier a continuing run is in, with what they say about its state. */
  lemma TierLogAt(opts: Options, seedCost: real, script: nat -> Event, n: nat, s: State) returns (log: TierLog)
    requires RunTo(opts, seedCost, script, n) == Running(s)
    ensures TracksTier(opts, s, log) && RunTheorems.TierInRange(opts, s.activeTier)
  {
    RunTheorems.RunningTracks(opts, seedCost, script, n);
    log := TierOf(opts, seedCost, script, n);
  }

  lemma EscalatedState(opts: Options, seedCost: real, script: nat -> Event, n: nat, before: State, s: State)
    requires RunTo(opts, seedCost, script, n) == Running(before) && RunTo(opts, seedCost, script, n + 1) == Running(s)
    requires before.ladder.Some? && before.ladder.value.tier == Frugal
    requires s.ladder.Some? && s.ladder.value.tier == Primary
    ensures 2 <= s.stallCount < opts.stallLimit
  {
    var log := TierLogAt(opts, seedCost, script, n, before);
    PassBetween(opts, seedCost, script, n, before, s);
    PassEscalates(opts, before, log, script(n + 1), n + 1);
  }

  /**
   A stall limit of 3 buys exactly one attempt on the primary model: when iteration n + 1 escalated, iteration n + 2
   improves, converges its tier, or does not leave the run going.
   */
  lemma LadderModel(opts: Options, seedCost: real, script: nat -> Event, n: nat, s: State)
    requires RunTo(opts, seedCost, script, n) == Running(s) && s.ladder.Some?
    ensures opts.frugalModel.Some?
    ensures ModelFor(opts, s) == if s.ladder.value.tier == Frugal then opts.frugalModel.value else opts.model
  {
    var _ := TierLogAt(opts, seedCost, script, n, s);
  }

  lemma LimitThreeBuysOneAttempt(opts: Options, seedCost: real, script: nat -> Event, n: nat,
                                 before: State, s: State, next: State)
    requires opts.stallLimit == 3
    requires RunTo(opts, seedCost, script, n) == Running(before)
    requires RunTo(opts, seedCost, script, n + 1) == Running(s)
    requires RunTo(opts, seedCost, script, n + 2) == Running(next)
    requires before.ladder.Some? && before.ladder.value.tier == Frugal
    requires s.ladder.Some? && s.ladder.value.tier == Primary
    ensures opts.frugalModel.Some? && ModelFor(opts, before) == opts.frugalModel.value
    ensures ModelFor(opts, s) == opts.model
    ensures s.stallCount == 2 && HasScore(script(n + 2))
    ensures next.activeTier == s.activeTier + 1 || (next.lastImproved && next.best > s.best)
  {
    EscalatedState(opts, seedCost, script, n, before, s);
    LadderModel(opts, seedCost, script, n, before);
    LadderModel(opts, seedCost, script, n + 1, s);
    PassBetween(opts, seedCost, script, n + 1, s, next);
    LastChance(opts, s, script(n + 2), n + 2);
  }
}
