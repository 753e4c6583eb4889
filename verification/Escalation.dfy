/** Two-tier model escalation with hysteresis. */
module Escalation {
  /** Consecutive failures on the frugal model before the primary model takes over. */
  const ESCALATE_AFTER_FAILURES := 2
  /** Consecutive improvements on the primary model before the frugal model returns. */
  const DOWNGRADE_AFTER_IMPROVEMENTS := 5

  datatype Tier = Frugal | Primary

  /** The fields of the escalation state as a value. */
  datatype Ladder = Ladder(tier: Tier, failures: nat, improvements: nat)

  const FRESH := Ladder(Frugal, 0, 0)

  function Record(l: Ladder, improved: bool): Ladder {
    if improved then
      if l.improvements + 1 >= DOWNGRADE_AFTER_IMPROVEMENTS && l.tier == Primary then Ladder(Frugal, 0, 0)
      else Ladder(l.tier, 0, l.improvements + 1)
    else if l.failures + 1 >= ESCALATE_AFTER_FAILURES && l.tier == Frugal then Ladder(Primary, 0, 0)
    else Ladder(l.tier, l.failures + 1, 0)
  }

  class EscalationState {
    var currentTier: Tier
    var consecutiveFailures: nat
    var consecutiveImprove: nat
    const frugalModel: string
    const primaryModel: string

    constructor (frugalModel: string, primaryModel: string)
      ensures State() == FRESH
      ensures this.frugalModel == frugalModel && this.primaryModel == primaryModel
    {
      this.frugalModel, this.primaryModel := frugalModel, primaryModel;
      currentTier, consecutiveFailures, consecutiveImprove := Frugal, 0, 0;
    }

    function State(): Ladder
      reads this
    {
      Ladder(currentTier, consecutiveFailures, consecutiveImprove)
    }

    function CurrentModel(): string
      reads this
    {
      if currentTier == Frugal then frugalModel else primaryModel
    }

    method RecordOutcome(improved: bool)
      modifies this
      ensures State() == Record(old(State()), improved)
    {
      if improved {
        consecutiveImprove := consecutiveImprove + 1;
        consecutiveFailures := 0;
        if consecutiveImprove >= DOWNGRADE_AFTER_IMPROVEMENTS && currentTier == Primary {
          currentTier := Frugal;
          consecutiveImprove := 0;
        }
      } else {
        consecutiveFailures := consecutiveFailures + 1;
        consecutiveImprove := 0;
        if consecutiveFailures >= ESCALATE_AFTER_FAILURES && currentTier == Frugal {
          currentTier := Primary;
          consecutiveFailures := 0;
        }
      }
    }
  }

  /** The state after a whole series of outcomes (true: improved). */
  function After(outcomes: seq<bool>): Ladder {
    if outcomes == [] then FRESH
    else Record(After(outcomes[..|outcomes| - 1]), outcomes[|outcomes| - 1])
  }

  /** Length of the run of equal outcomes b at the end. */
  function Trailing(outcomes: seq<bool>, b: bool): (n: nat)
    ensures n <= |outcomes|
    ensures forall i :: |outcomes| - n <= i < |outcomes| ==> outcomes[i] == b
    ensures n < |outcomes| ==> outcomes[|outcomes| - n - 1] != b
  {
    if outcomes == [] || outcomes[|outcomes| - 1] != b then 0
    else 1 + Trailing(outcomes[..|outcomes| - 1], b)
  }

  /**
   The counters against the outcome series: on the frugal tier the failure counter is the trailing run of failures
   and at most 1; on the primary tier it is that run, or that run less the two failures that escalated, which holds
   exactly when the run of failures began on the frugal tier, that is, until the first improvement after escalating.
   */
  lemma {:induction false} CountersFollowOutcomes(outcomes: seq<bool>)
    ensures var l, failing := After(outcomes), Trailing(outcomes, false);
            && (l.tier == Frugal ==> l.failures == failing <= 1)
            && (l.tier == Primary ==> l.failures == failing || l.failures + 2 == failing)
            && (l.tier == Primary ==> (l.failures + 2 == failing <==>
                  After(outcomes[..|outcomes| - failing]).tier == Frugal))
            && (l.tier == Primary ==> l.improvements == Trailing(outcomes, true) < 5)
  {
    if outcomes != [] {
      var init, failing := outcomes[..|outcomes| - 1], Trailing(outcomes, false);
      CountersFollowOutcomes(init);
      if outcomes[|outcomes| - 1] {
        assert outcomes[..|outcomes|] == outcomes;
      } else {
        assert outcomes[..|outcomes| - failing] == init[..|init| - Trailing(init, false)];
      }
    }
  }

  /** Two failures in a row end at position i. */
  ghost predicate FailedTwice(outcomes: seq<bool>, i: int) {
    1 <= i < |outcomes| && !outcomes[i - 1] && !outcomes[i]
  }

  /** Five improvements in a row end at position j. */
  ghost predicate ImprovedFiveTimes(outcomes: seq<bool>, j: int) {
    4 <= j < |outcomes|
    && forall k :: j - 5 < k <= j ==> outcomes[k]
  }

  /** A double failure at i that no five improvements have made good since. */
  ghost predicate StillEscalated(outcomes: seq<bool>, i: int) {
    FailedTwice(outcomes, i) && forall j :: j >= i + 5 ==> !ImprovedFiveTimes(outcomes, j)
  }

  lemma TrailingRuns(outcomes: seq<bool>)
    ensures FailedTwice(outcomes, |outcomes| - 1) <==> Trailing(outcomes, false) >= 2
    ensures ImprovedFiveTimes(outcomes, |outcomes| - 1) <==> Trailing(outcomes, true) >= 5
  {
    var n := |outcomes|;
    if ImprovedFiveTimes(outcomes, n - 1) {
      assert outcomes[n - 1] && outcomes[n - 2] && outcomes[n - 3] && outcomes[n - 4] && outcomes[n - 5];
    }
  }

  /** One more outcome keeps an escalation alive unless it completes five improvements. */
  lemma StillEscalatedStep(outcomes: seq<bool>, i: int)
    requires outcomes != [] && i < |outcomes| - 1
    ensures StillEscalated(outcomes, i) <==>
            StillEscalated(outcomes[..|outcomes| - 1], i)
            && !(|outcomes| - 1 >= i + 5 && ImprovedFiveTimes(outcomes, |outcomes| - 1))
  {
    var init := outcomes[..|outcomes| - 1];
    forall j | j < |init| ensures ImprovedFiveTimes(init, j) <==> ImprovedFiveTimes(outcomes, j) {
    }
    assert FailedTwice(init, i) <==> FailedTwice(outcomes, i);
  }

  /**
   The hysteresis in closed form: the primary model is in use exactly when the series holds two failures in a row
   that are not followed by five improvements in a row.
   */
  lemma {:induction false} PrimaryIff(outcomes: seq<bool>)
    ensures After(outcomes).tier == Primary <==> exists i :: StillEscalated(outcomes, i)
  {
    if outcomes != [] {
      var n := |outcomes| - 1;
      var init := outcomes[..n];
      PrimaryIff(init);
      CountersFollowOutcomes(init);
      CountersFollowOutcomes(outcomes);
      TrailingRuns(outcomes);
      forall i | i < n
        ensures StillEscalated(outcomes, i) <==>
                StillEscalated(init, i) && !(n >= i + 5 && ImprovedFiveTimes(outcomes, n))
      {
        StillEscalatedStep(outcomes, i);
      }
      assert StillEscalated(outcomes, n) <==> FailedTwice(outcomes, n);
      forall i | StillEscalated(init, i) && ImprovedFiveTimes(outcomes, n)
        ensures n >= i + 5
      {
        assert !outcomes[i];
      }
    }
  }
}
