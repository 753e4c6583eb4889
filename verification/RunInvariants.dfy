/** What every run of the convergence loop keeps, measured against the events of the current tier. */
module RunInvariants {
  import opened Wrappers
  import opened Escalation
  import opened RunLoop

  // ---- reading a tier's events, without looking at the run state ----

  predicate HasScore(e: Event) {
    e.Served? && e.after.Validated?
  }

  /** The largest validated score, 0 if there is none. */
  function BestOf(h: seq<Event>): real {
    if h == [] then 0.0
    else
      var e, b := h[|h| - 1], BestOf(h[..|h| - 1]);
      if HasScore(e) && e.after.score > b then e.after.score else b
  }

  /** Event i was validated above everything validated before it in the tier. */
  predicate Improves(h: seq<Event>, i: nat)
    requires i < |h|
  {
    HasScore(h[i]) && h[i].after.score > BestOf(h[..i])
  }

  /** How many events there are up to and including the last improving one. */
  function LastImprovement(h: seq<Event>): (k: nat)
    ensures k <= |h|
  {
    if h == [] then 0
    else if Improves(h, |h| - 1) then |h|
    else LastImprovement(h[..|h| - 1])
  }

  /** The events since the last improvement. */
  function Drought(h: seq<Event>): seq<Event> {
    h[LastImprovement(h)..]
  }

  /** The container start failed and yet the iteration went on. */
  predicate FellThrough(e: Event) {
    e.Served? && e.startFailed
  }

  /** Stalls an iteration without improvement records. */
  function Stalls(e: Event): nat {
    if FellThrough(e) then 2 else 1
  }

  function SumStalls(h: seq<Event>): nat {
    if h == [] then 0 else SumStalls(h[..|h| - 1]) + Stalls(h[|h| - 1])
  }

  function CountFellThrough(h: seq<Event>): nat {
    if h == [] then 0 else CountFellThrough(h[..|h| - 1]) + if FellThrough(h[|h| - 1]) then 1 else 0
  }

  /** Validations strictly below the best so far, since the last improvement. */
  function Setbacks(h: seq<Event>): nat {
    if h == [] then 0
    else
      var e, init := h[|h| - 1], h[..|h| - 1];
      if Improves(h, |h| - 1) then 0
      else Setbacks(init) + if HasScore(e) && e.after.score < BestOf(init) then 1 else 0
  }

  /** Patch mode survives exactly while the setbacks between improvements stay below two. */
  ghost predicate PatchSurvives(h: seq<Event>) {
    forall k :: 0 <= k <= |h| ==> Setbacks(h[..k]) < 2
  }

  /** The improved/not improved series the escalation state is fed. */
  function Outcomes(h: seq<Event>): (b: seq<bool>)
    ensures |b| == |h|
    ensures forall i :: 0 <= i < |h| ==> b[i] == Improves(h, i)
  {
    seq(|h|, i requires 0 <= i < |h| => Improves(h, i))
  }

  function LastScores(h: seq<Event>): Scores {
    if h == [] then map[]
    else if HasScore(h[|h| - 1]) then h[|h| - 1].after.scenarios
    else LastScores(h[..|h| - 1])
  }

  /** The best bounds every validated score, and was scored at the last improvement; without one it is 0. */
  lemma {:induction false} BestIsEarned(h: seq<Event>)
    ensures forall e :: e in h && HasScore(e) ==> e.after.score <= BestOf(h)
    ensures LastImprovement(h) > 0 ==>
        HasScore(h[LastImprovement(h) - 1]) && h[LastImprovement(h) - 1].after.score == BestOf(h)
    ensures LastImprovement(h) == 0 ==> BestOf(h) == 0.0
    ensures BestOf(h) >= 0.0
  {
    if h != [] {
      BestIsEarned(h[..|h| - 1]);
      assert h == h[..|h| - 1] + [h[|h| - 1]];
    }
  }

  // ---- the tier the run is in ----

  /** The events since the run entered its current tier, and the best files it entered with. */
  datatype TierLog = TierLog(events: seq<Event>, carried: Option<FileSet>)

  function TierOf(opts: Options, seedCost: real, script: nat -> Event, n: nat): TierLog {
    if n == 0 then TierLog([], None)
    else
      var before := RunTo(opts, seedCost, script, n - 1);
      var now := RunTo(opts, seedCost, script, n);
      if before.Running? && now.Running? then
        if now.state.activeTier != before.state.activeTier then
          TierLog([], if HasScore(script(n)) then Some(script(n).after.files) else None)
        else
          var log := TierOf(opts, seedCost, script, n - 1);
          log.(events := log.events + [script(n)])
      else TierLog([], None)
  }

  ghost predicate TracksBest(s: State, log: TierLog) {
    var h := log.events;
    && s.best == BestOf(h)
    && s.bestFiles == (if LastImprovement(h) > 0 then Some(FilesAt(h, LastImprovement(h) - 1)) else log.carried)
    && (s.bestFiles.Some? ==> Contains(s.bestDir, s.bestFiles.value))
    && s.scenarioScores == LastScores(h)
  }

  /**
   The best score is the largest validated score of the tier, and the best files are those of an event that scored it;
   without an improvement it is 0, and the best files are those the tier was entered with.
   */
  ghost predicate HoldsBest(s: State, log: TierLog) {
    var h, k := log.events, LastImprovement(log.events);
    && (forall e :: e in h && HasScore(e) ==> e.after.score <= s.best)
    && (if k > 0 then HasScore(h[k - 1]) && s.best == h[k - 1].after.score && s.bestFiles == Some(h[k - 1].after.files)
        else s.best == 0.0 && s.bestFiles == log.carried)
  }

  lemma TrackedBestHolds(s: State, log: TierLog)
    requires TracksBest(s, log)
    ensures HoldsBest(s, log) && s.best >= 0.0
  {
    BestIsEarned(log.events);
  }

  ghost predicate TracksLadder(opts: Options, s: State, h: seq<Event>) {
    && (s.ladder.Some? <==> opts.frugalModel.Some?)
    && (s.ladder.Some? ==> s.ladder.value == After(Outcomes(h)))
  }

  ghost predicate TracksPatch(opts: Options, s: State, h: seq<Event>) {
    && (s.patchActive <==> opts.patchMode && PatchSurvives(h))
    && (s.patchActive ==> s.patchRegressions == Setbacks(h))
  }

  /** Everything the run state must say about the tier's events. */
  ghost predicate TracksTier(opts: Options, s: State, log: TierLog) {
    && TracksBest(s, log)
    && s.stallCount == SumStalls(Drought(log.events))
    && TracksLadder(opts, s, log.events)
    && TracksPatch(opts, s, log.events)
  }

  function FilesAt(h: seq<Event>, i: nat): FileSet
    requires i < |h|
  {
    if HasScore(h[i]) then h[i].after.files else map[]
  }

  ghost predicate Contains(dir: FileSet, files: FileSet) {
    forall p :: p in files ==> p in dir && dir[p] == files[p]
  }

  // ---- one more event ----

  lemma BestStep(h: seq<Event>, e: Event)
    ensures BestOf(h + [e]) == if HasScore(e) && e.after.score > BestOf(h) then e.after.score else BestOf(h)
    ensures Improves(h + [e], |h|) <==> HasScore(e) && e.after.score > BestOf(h)
    ensures LastScores(h + [e]) == if HasScore(e) then e.after.scenarios else LastScores(h)
  {
    assert (h + [e])[..|h|] == h;
  }

  lemma SumStallsStep(h: seq<Event>, e: Event)
    ensures SumStalls(h + [e]) == SumStalls(h) + Stalls(e)
    ensures CountFellThrough(h + [e]) == CountFellThrough(h) + if FellThrough(e) then 1 else 0
  {
    assert (h + [e])[..|h|] == h;
  }

  lemma LastImprovementStep(h: seq<Event>, e: Event)
    ensures LastImprovement(h + [e]) == if Improves(h + [e], |h|) then |h| + 1 else LastImprovement(h)
  {
    var g := h + [e];
    assert g[..|g| - 1] == h;
  }

  lemma DroughtStep(h: seq<Event>, e: Event)
    ensures SumStalls(Drought(h + [e])) == if Improves(h + [e], |h|) then 0 else SumStalls(Drought(h)) + Stalls(e)
    ensures CountFellThrough(Drought(h + [e]))
            == if Improves(h + [e], |h|) then 0 else CountFellThrough(Drought(h)) + if FellThrough(e) then 1 else 0
  {
    LastImprovementStep(h, e);
    if Improves(h + [e], |h|) {
      assert Drought(h + [e]) == [];
    } else {
      assert Drought(h + [e]) == Drought(h) + [e];
      SumStallsStep(Drought(h), e);
    }
  }

  lemma SetbacksStep(h: seq<Event>, e: Event)
    ensures Setbacks(h + [e]) == if Improves(h + [e], |h|) then 0
                                 else Setbacks(h) + if HasScore(e) && e.after.score < BestOf(h) then 1 else 0
  {
    assert (h + [e])[..|h|] == h;
  }

  lemma OutcomesStep(h: seq<Event>, e: Event)
    ensures Outcomes(h + [e]) == Outcomes(h) + [Improves(h + [e], |h|)]
    ensures After(Outcomes(h + [e])) == Record(After(Outcomes(h)), Improves(h + [e], |h|))
  {
    var g := h + [e];
    forall i | 0 <= i < |h| ensures Outcomes(g)[i] == Outcomes(h)[i] {
      assert g[..i] == h[..i];
    }
    assert Outcomes(g)[..|h|] == Outcomes(h);
  }

  lemma {:induction false} FilesAtStable(h: seq<Event>, e: Event)
    ensures LastImprovement(h) > 0 ==> FilesAt(h + [e], LastImprovement(h) - 1) == FilesAt(h, LastImprovement(h) - 1)
  {
  }

  lemma PatchStep(h: seq<Event>, e: Event)
    ensures PatchSurvives(h + [e]) <==> PatchSurvives(h) && Setbacks(h + [e]) < 2
  {
    var g := h + [e];
    assert forall k :: 0 <= k <= |h| ==> g[..k] == h[..k];
    assert g[..|g|] == g;
  }

  /** next is s after an event that improved, or set back, or did neither. */
  ghost predicate Effect(s: State, next: State, improved: bool, setback: bool, stalls: nat) {
    && next.lastImproved == improved
    && next.stallCount == (if improved then 0 else s.stallCount + stalls)
    && next.patchActive == (s.patchActive && (improved || !setback || s.patchRegressions + 1 < PATCH_REGRESSION_LIMIT))
    && (s.patchActive ==>
          next.patchRegressions == if improved then 0 else s.patchRegressions + if setback then 1 else 0)
    && next.ladder == s.ladder && next.activeTier == s.activeTier
    && (!improved ==> next.best == s.best && next.bestFiles == s.bestFiles && next.bestDir == s.bestDir)
  }

  lemma ProcessEffect(opts: Options, s: State, v: AfterStart, next: State)
    requires v.Validated? && !s.lastImproved && ProcessValidation(opts, s, v) == (next, Continue)
    ensures Effect(s, next, v.score > s.best, v.score < s.best, 1)
    ensures next.scenarioScores == v.scenarios
    ensures v.score > s.best ==>
              next.best == v.score && next.bestFiles == Some(v.files) && next.bestDir == s.bestDir + v.files
    ensures next.stallCount < opts.stallLimit && !OverBudget(opts, next)
  {
  }

  /** What a continuing iteration does to the state, in one place. */
  lemma ContinueEffect(opts: Options, s: State, e: Event, next: State)
    requires Iterate(opts, s, e) == (next, Continue)
    ensures Effect(s, next, HasScore(e) && e.after.score > s.best, HasScore(e) && e.after.score < s.best, Stalls(e))
    ensures HasScore(e) && e.after.score > s.best ==>
              next.best == e.after.score && next.bestFiles == Some(e.after.files)
              && next.bestDir == s.bestDir + e.after.files
    ensures next.scenarioScores == if HasScore(e) then e.after.scenarios else s.scenarioScores
    ensures next.stallCount < opts.stallLimit
  {
    if HasScore(e) {
      var s0 := AddCost(s.(lastImproved := false), e.cost);
      var started := if e.startFailed then RecordStall(s0) else s0;
      ProcessEffect(opts, AddCost(started, e.after.validationCost), e.after, next);
    }
  }

  lemma BestTracks(s: State, log: TierLog, e: Event, next: State)
    requires TracksBest(s, log)
    requires HasScore(e) && e.after.score > s.best ==>
               next.best == e.after.score && next.bestFiles == Some(e.after.files)
               && next.bestDir == s.bestDir + e.after.files
    requires !(HasScore(e) && e.after.score > s.best) ==>
               next.best == s.best && next.bestFiles == s.bestFiles && next.bestDir == s.bestDir
    requires next.scenarioScores == if HasScore(e) then e.after.scenarios else s.scenarioScores
    ensures TracksBest(next, log.(events := log.events + [e]))
  {
    var h := log.events;
    BestStep(h, e);
    LastImprovementStep(h, e);
    FilesAtStable(h, e);
  }

  lemma PatchTracks(opts: Options, s: State, h: seq<Event>, e: Event, next: State)
    requires TracksPatch(opts, s, h) && s.best == BestOf(h)
    requires Effect(s, next, HasScore(e) && e.after.score > s.best, HasScore(e) && e.after.score < s.best, Stalls(e))
    ensures TracksPatch(opts, next, h + [e])
  {
    BestStep(h, e);
    SetbacksStep(h, e);
    PatchStep(h, e);
    assert h[..|h|] == h;
    assert PatchSurvives(h) ==> Setbacks(h[..|h|]) < 2;
  }

  lemma LadderTracks(opts: Options, s: State, h: seq<Event>, e: Event, next: State)
    requires TracksLadder(opts, s, h) && s.best == BestOf(h)
    requires next.ladder == s.ladder && next.lastImproved == (HasScore(e) && e.after.score > s.best)
    ensures TracksLadder(opts, Escalate(next), h + [e])
  {
    BestStep(h, e);
    OutcomesStep(h, e);
  }

  /** A continuing iteration keeps the state in step with the events. */
  lemma ContinueTracks(opts: Options, s: State, log: TierLog, e: Event, next: State)
    requires TracksTier(opts, s, log) && Iterate(opts, s, e) == (next, Continue)
    ensures TracksTier(opts, Escalate(next), log.(events := log.events + [e]))
    ensures Escalate(next).stallCount < opts.stallLimit
    ensures Escalate(next).activeTier == s.activeTier
  {
    var h := log.events;
    ContinueEffect(opts, s, e, next);
    BestTracks(s, log, e, next);
    StallTracks(s, h, e, next);
    PatchTracks(opts, s, h, e, next);
    LadderTracks(opts, s, h, e, next);
    EscalateOnly(opts, next, log.(events := h + [e]));
  }

  lemma StallTracks(s: State, h: seq<Event>, e: Event, next: State)
    requires s.best == BestOf(h) && s.stallCount == SumStalls(Drought(h))
    requires next.stallCount == if HasScore(e) && e.after.score > s.best then 0 else s.stallCount + Stalls(e)
    ensures next.stallCount == SumStalls(Drought(h + [e]))
  {
    BestStep(h, e);
    DroughtStep(h, e);
  }

  lemma EscalateOnly(opts: Options, s: State, log: TierLog)
    ensures TracksBest(Escalate(s), log) <==> TracksBest(s, log)
    ensures TracksPatch(opts, Escalate(s), log.events) <==> TracksPatch(opts, s, log.events)
    ensures Escalate(s).stallCount == s.stallCount && Escalate(s).activeTier == s.activeTier
  {
  }
}
