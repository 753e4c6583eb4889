/** The steering notice: scenarios that failed in two or more consecutive validations. */
module Steering {
  type Failures = map<string, real>
  type Streaks = map<string, nat>
  type Scores = map<string, seq<real>>

  /** A feedback entry; build, health, parse and run errors carry no failed scenarios. */
  datatype Feedback = Other | Validation(failed: Failures)

  function Validations(history: seq<Feedback>): seq<Failures> {
    if history == [] then []
    else Validations(history[..|history| - 1])
         + (match history[|history| - 1] case Other => [] case Validation(failed) => [failed])
  }

  /** Length of the run of validations ending the history in which id failed. */
  function TrailingRun(vs: seq<Failures>, id: string): (n: nat)
    ensures n <= |vs|
    ensures forall i :: |vs| - n <= i < |vs| ==> id in vs[i]
    ensures n < |vs| ==> id !in vs[|vs| - n - 1]
  {
    if vs == [] || id !in vs[|vs| - 1] then 0 else 1 + TrailingRun(vs[..|vs| - 1], id)
  }

  function TrailingScores(vs: seq<Failures>, id: string): (scores: seq<real>)
    ensures |scores| == TrailingRun(vs, id)
    ensures forall i :: 0 <= i < |scores| ==> scores[i] == vs[|vs| - |scores| + i][id]
  {
    if vs == [] || id !in vs[|vs| - 1] then []
    else TrailingScores(vs[..|vs| - 1], id) + [vs[|vs| - 1][id]]
  }

  /** What is kept of a scenario: its streak and the scores along it. */
  datatype Stall = Stall(streak: nat, scores: seq<real>)

  const NO_STALL := Stall(0, [])

  function Slot(vs: seq<Failures>, id: string): Stall {
    Stall(TrailingRun(vs, id), TrailingScores(vs, id))
  }

  /** The two maps hold slot for id, and nothing for an empty one. */
  ghost predicate Matches(streaks: Streaks, scores: Scores, id: string, slot: Stall) {
    && (id in streaks <==> slot.streak > 0)
    && (id in scores <==> slot.streak > 0)
    && (id in streaks && id in scores ==> streaks[id] == slot.streak && scores[id] == slot.scores)
  }

  ghost predicate Tracks(streaks: Streaks, scores: Scores, vs: seq<Failures>) {
    forall id :: Matches(streaks, scores, id, Slot(vs, id))
  }

  /** ids that are still to be examined, or that failed, are as before the entry; the others have no streak. */
  ghost predicate Dropping(streaks: Streaks, scores: Scores, vs: seq<Failures>, failed: Failures, ids: set<string>)
  {
    forall id :: Matches(streaks, scores, id, if id in ids || id in failed then Slot(vs, id) else NO_STALL)
  }

  /** Of the ids that failed, those in todo are as before the entry and the others as after it. */
  ghost predicate Extending(streaks: Streaks, scores: Scores, vs: seq<Failures>, failed: Failures, todo: set<string>)
  {
    forall id :: Matches(streaks, scores, id, if id in todo then Slot(vs, id) else Slot(vs + [failed], id))
  }

  lemma SlotAfter(vs: seq<Failures>, failed: Failures, id: string)
    ensures Slot(vs + [failed], id) ==
        if id in failed then Stall(1 + TrailingRun(vs, id), TrailingScores(vs, id) + [failed[id]]) else NO_STALL
  {
    assert (vs + [failed])[..|vs|] == vs;
  }

  lemma DropOne(streaks: Streaks, scores: Scores, vs: seq<Failures>, failed: Failures, ids: set<string>, k: string)
    requires Dropping(streaks, scores, vs, failed, ids)
    ensures k in failed ==> Dropping(streaks, scores, vs, failed, ids - {k})
    ensures k !in failed ==> Dropping(streaks - {k}, scores - {k}, vs, failed, ids - {k})
  {
    var streaks', scores' := if k in failed then streaks else streaks - {k},
                             if k in failed then scores else scores - {k};
    forall id ensures Matches(streaks', scores', id,
                              if id in ids - {k} || id in failed then Slot(vs, id) else NO_STALL) {
      assert Matches(streaks, scores, id, if id in ids || id in failed then Slot(vs, id) else NO_STALL);
    }
  }

  function StreakOf(streaks: Streaks, id: string): nat {
    if id in streaks then streaks[id] else 0
  }

  function ScoresOf(scores: Scores, id: string): seq<real> {
    if id in scores then scores[id] else []
  }

  lemma ExtendOne(streaks: Streaks, scores: Scores, vs: seq<Failures>, failed: Failures, todo: set<string>, k: string)
    requires Extending(streaks, scores, vs, failed, todo) && k in todo && k in failed
    ensures Extending(streaks[k := StreakOf(streaks, k) + 1], scores[k := ScoresOf(scores, k) + [failed[k]]],
                      vs, failed, todo - {k})
  {
    var streaks', scores' := streaks[k := StreakOf(streaks, k) + 1], scores[k := ScoresOf(scores, k) + [failed[k]]];
    assert Matches(streaks, scores, k, Slot(vs, k));
    SlotAfter(vs, failed, k);
    forall id ensures Matches(streaks', scores', id,
                              if id in todo - {k} then Slot(vs, id) else Slot(vs + [failed], id)) {
      assert Matches(streaks, scores, id, if id in todo then Slot(vs, id) else Slot(vs + [failed], id));
    }
  }

  /** Scenarios that did not fail in this validation lose their streak. */
  method Drop(streaks0: Streaks, scores0: Scores, failed: Failures, ghost vs: seq<Failures>)
      returns (streaks: Streaks, scores: Scores)
    requires Tracks(streaks0, scores0, vs)
    ensures Dropping(streaks, scores, vs, failed, {})
  {
    streaks, scores := streaks0, scores0;
    var ids := streaks.Keys;
    forall id ensures Matches(streaks, scores, id, if id in ids || id in failed then Slot(vs, id) else NO_STALL) {
      assert Matches(streaks, scores, id, Slot(vs, id));
    }
    while ids != {}
      invariant Dropping(streaks, scores, vs, failed, ids)
      decreases ids
    {
      var id :| id in ids;
      DropOne(streaks, scores, vs, failed, ids, id);
      if id !in failed {
        streaks, scores := streaks - {id}, scores - {id};
      }
      ids := ids - {id};
    }
  }

  lemma ExtendStart(streaks: Streaks, scores: Scores, vs: seq<Failures>, failed: Failures)
    requires Dropping(streaks, scores, vs, failed, {})
    ensures Extending(streaks, scores, vs, failed, failed.Keys)
  {
    forall id ensures Matches(streaks, scores, id,
                              if id in failed.Keys then Slot(vs, id) else Slot(vs + [failed], id)) {
      SlotAfter(vs, failed, id);
      assert Matches(streaks, scores, id, if id in {} || id in failed then Slot(vs, id) else NO_STALL);
    }
  }

  lemma ExtendDone(streaks: Streaks, scores: Scores, vs: seq<Failures>, failed: Failures)
    requires Extending(streaks, scores, vs, failed, {})
    ensures Tracks(streaks, scores, vs + [failed])
  {
    forall id ensures Matches(streaks, scores, id, Slot(vs + [failed], id)) {
      assert Matches(streaks, scores, id, if id in {} then Slot(vs, id) else Slot(vs + [failed], id));
    }
  }

  /** Scenarios that failed in it extend theirs. */
  method Extend(streaks0: Streaks, scores0: Scores, failed: Failures, ghost vs: seq<Failures>)
      returns (streaks: Streaks, scores: Scores)
    requires Dropping(streaks0, scores0, vs, failed, {})
    ensures Tracks(streaks, scores, vs + [failed])
  {
    streaks, scores := streaks0, scores0;
    var todo := failed.Keys;
    ExtendStart(streaks, scores, vs, failed);
    while todo != {}
      invariant todo <= failed.Keys
      invariant Extending(streaks, scores, vs, failed, todo)
      decreases todo
    {
      var id :| id in todo;
      ExtendOne(streaks, scores, vs, failed, todo, id);
      streaks := streaks[id := StreakOf(streaks, id) + 1];
      scores := scores[id := ScoresOf(scores, id) + [failed[id]]];
      todo := todo - {id};
    }
    ExtendDone(streaks, scores, vs, failed);
  }

  lemma ValidationsSnoc(history: seq<Feedback>, i: nat)
    requires i < |history|
    ensures Validations(history[..i + 1]) ==
        if history[i].Validation? then Validations(history[..i]) + [history[i].failed] else Validations(history[..i])
  {
    assert history[..i + 1][..i] == history[..i];
  }

  method FoldHistory(history: seq<Feedback>) returns (streaks: Streaks, scores: Scores)
    ensures Tracks(streaks, scores, Validations(history))
  {
    streaks, scores := map[], map[];
    for i := 0 to |history|
      invariant Tracks(streaks, scores, Validations(history[..i]))
    {
      ValidationsSnoc(history, i);
      if history[i].Validation? {
        streaks, scores := Drop(streaks, scores, history[i].failed, Validations(history[..i]));
        streaks, scores := Extend(streaks, scores, history[i].failed, Validations(history[..i]));
      }
    }
    assert history[..|history|] == history;
  }

  /** The notice: each stalling scenario, printed in order of id. */
  method BuildSteering(history: seq<Feedback>) returns (notice: map<string, Stall>)
    ensures forall id :: id in notice <==> TrailingRun(Validations(history), id) >= 2
    ensures forall id :: id in notice ==> notice[id] == Slot(Validations(history), id)
  {
    var streaks, scores := FoldHistory(history);
    ghost var vs := Validations(history);
    forall id ensures id in streaks ==> id in scores && Stall(streaks[id], scores[id]) == Slot(vs, id)
      ensures id !in streaks ==> TrailingRun(vs, id) == 0
    {
      assert Matches(streaks, scores, id, Slot(vs, id));
    }
    notice := map id | id in streaks && streaks[id] >= 2 :: Stall(streaks[id], scores[id]);
  }

  /** The notice names a scenario exactly when it failed in both of the last two validations, whatever came between. */
  lemma StallsIff(vs: seq<Failures>, id: string)
    ensures TrailingRun(vs, id) >= 2 <==> |vs| >= 2 && id in vs[|vs| - 1] && id in vs[|vs| - 2]
  {
  }

  lemma {:induction false} ValidationsConcat(a: seq<Feedback>, b: seq<Feedback>)
    ensures Validations(a + b) == Validations(a) + Validations(b)
    decreases |b|
  {
    if b == [] {
      assert a + b == a;
    } else {
      var front := b[..|b| - 1];
      assert (a + b)[..|a + b| - 1] == a + front;
      ValidationsConcat(a, front);
    }
  }

  lemma {:induction false} NoValidations(others: seq<Feedback>)
    requires forall f :: f in others ==> f.Other?
    ensures Validations(others) == []
  {
    if others != [] {
      assert others[|others| - 1] in others;
      NoValidations(others[..|others| - 1]);
    }
  }

  /** Entries that are not validations never change the notice, wherever in the history they stand. */
  lemma OthersIgnored(before: seq<Feedback>, others: seq<Feedback>, later: seq<Feedback>)
    requires forall f :: f in others ==> f.Other?
    ensures Validations(before + others + later) == Validations(before + later)
  {
    ValidationsConcat(before + others, later);
    ValidationsConcat(before, others);
    ValidationsConcat(before, later);
    NoValidations(others);
  }
}
