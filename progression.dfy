// The progression advisor: stateless arithmetic over one exercise's past
// sessions, newest first. It estimates one-repetition maxima, sums training
// volume, counts weeks since the last deload and the current training streak,
// estimates a session's length, and recommends the next working weight.
module Progression {
  import opened Types
  import opened JsMath
  import Seqs

  const CompoundIncrement: real := 2.5
  const IsolationIncrement: real := 1.25
  const CompoundGroups: set<MuscleGroup> := {Chest, Back, Quadriceps, Glutes}
  const MillisPerDay: int := 1000 * 60 * 60 * 24

  /** One past session of a single exercise: when it happened and the sets performed. */
  datatype HistoryEntry = HistoryEntry(date: int, sets: seq<WorkoutSet>)

  function AbsReal(x: real): (r: real)
    ensures r >= 0.0 && (r == x || r == -x)
  {
    if x < 0.0 then -x else x
  }

  function Min(a: int, b: int): int { if a < b then a else b }

  // ---------------------------------------------------------------------------
  // One-repetition maximum

  /** The Epley-style estimate before rounding. */
  function EpleyEstimate(weight: real, reps: int): real
  {
    weight * (1.0 + reps as real / 30.0)
  }

  /** A single repetition is its own maximum; otherwise the Epley estimate rounded to a whole number. */
  function Calculate1RM(weight: real, reps: int): (r: real)
    ensures reps == 1 ==> r == weight
    ensures reps != 1 ==> r == r.Floor as real
    ensures reps != 1 ==> EpleyEstimate(weight, reps) - 0.5 < r <= EpleyEstimate(weight, reps) + 0.5
  {
    if reps == 1 then weight else Round(EpleyEstimate(weight, reps)) as real
  }

  lemma Calculate1RMExamples()
    ensures Calculate1RM(100.0, 1) == 100.0
    ensures Calculate1RM(100.0, 10) == 133.0
  {
    assert EpleyEstimate(100.0, 10) == 400.0 / 3.0;
    RoundUnique(400.0 / 3.0, 133);
  }

  // ---------------------------------------------------------------------------
  // Volume

  predicate IsCompleted(s: WorkoutSet) { s.completed }

  /** The sum of weight times repetitions over the given sets, all of them. */
  function Tonnage(sets: seq<WorkoutSet>): real
  {
    if sets == [] then 0.0 else sets[0].weight * sets[0].reps as real + Tonnage(sets[1..])
  }

  /** Volume counts completed sets only. */
  function CalculateVolume(sets: seq<WorkoutSet>): (v: real)
    ensures (forall k :: 0 <= k < |sets| ==> !sets[k].completed) ==> v == 0.0
  {
    Tonnage(Seqs.Filter(sets, IsCompleted))
  }

  lemma {:induction false} TonnageAppend(a: seq<WorkoutSet>, b: seq<WorkoutSet>)
    ensures Tonnage(a + b) == Tonnage(a) + Tonnage(b)
  {
    if a == [] {
      assert a + b == b;
    } else {
      assert (a + b)[1..] == a[1..] + b;
      TonnageAppend(a[1..], b);
    }
  }

  /** Volume distributes over concatenation of set lists. */
  lemma VolumeAppend(a: seq<WorkoutSet>, b: seq<WorkoutSet>)
    ensures CalculateVolume(a + b) == CalculateVolume(a) + CalculateVolume(b)
  {
    Seqs.FilterAppend(a, b, IsCompleted);
    TonnageAppend(Seqs.Filter(a, IsCompleted), Seqs.Filter(b, IsCompleted));
  }

  /** Logging an unfinished set never changes the volume. */
  lemma VolumeIgnoresIncompleteSet(sets: seq<WorkoutSet>, s: WorkoutSet)
    requires !s.completed
    ensures CalculateVolume(sets + [s]) == CalculateVolume(sets)
  {
    VolumeAppend(sets, [s]);
    assert Seqs.Filter([s], IsCompleted) == [];
  }

  /** With non-negative weights and repetitions the volume is non-negative. */
  lemma VolumeNonNegative(sets: seq<WorkoutSet>)
    requires forall i :: 0 <= i < |sets| ==> sets[i].weight >= 0.0 && sets[i].reps >= 0
    ensures CalculateVolume(sets) >= 0.0
  {
    var done := Seqs.Filter(sets, IsCompleted);
    forall i | 0 <= i < |done|
      ensures done[i].weight >= 0.0 && done[i].reps >= 0
    {
      assert done[i] in sets;
    }
    TonnageNonNegative(done);
  }

  lemma {:induction false} TonnageNonNegative(sets: seq<WorkoutSet>)
    requires forall i :: 0 <= i < |sets| ==> sets[i].weight >= 0.0 && sets[i].reps >= 0
    ensures Tonnage(sets) >= 0.0
  {
    if sets != [] {
      TonnageNonNegative(sets[1..]);
      var head := sets[0];
      assert head.weight * head.reps as real >= 0.0;
    }
  }

  lemma VolumeExample()
    ensures CalculateVolume([WorkoutSet(5, 100.0, None, true), WorkoutSet(5, 100.0, None, false)]) == 500.0
  {
    var done, open := WorkoutSet(5, 100.0, None, true), WorkoutSet(5, 100.0, None, false);
    VolumeIgnoresIncompleteSet([done], open);
    assert [done] + [open] == [done, open];
    assert Seqs.Filter([done], IsCompleted) == [done];
    assert Tonnage([done]) == 100.0 * 5.0 + Tonnage([]);
  }

  // ---------------------------------------------------------------------------
  // Increments, effort and completion

  /** Compound muscle groups progress in 2.5 kg steps, all others in 1.25 kg steps. */
  function WeightIncrement(exercise: Exercise): (inc: real)
    ensures inc == 2.5 <==> exercise.muscleGroup in {Chest, Back, Quadriceps, Glutes}
    ensures inc == 1.25 <==> exercise.muscleGroup !in {Chest, Back, Quadriceps, Glutes}
  {
    if exercise.muscleGroup in CompoundGroups then CompoundIncrement else IsolationIncrement
  }

  /** Every set of every session, in order (a flatMap). */
  function AllSets(history: seq<HistoryEntry>): seq<WorkoutSet>
  {
    if history == [] then [] else history[0].sets + AllSets(history[1..])
  }

  predicate IsRated(s: WorkoutSet) { s.rpe.Some? && s.completed }

  function RpeSum(sets: seq<WorkoutSet>): real
  {
    if sets == [] then 0.0
    else (match sets[0].rpe case Some(v) => v case None => 0.0) + RpeSum(sets[1..])
  }

  /** The completed sets that carry an RPE, across the whole history. */
  function RatedSets(history: seq<HistoryEntry>): seq<WorkoutSet>
  {
    Seqs.Filter(AllSets(history), IsRated)
  }

  /** The mean RPE of completed sets that carry one; 7 when there are none. */
  function AverageRPE(history: seq<HistoryEntry>): (avg: real)
    ensures RatedSets(history) == [] ==> avg == 7.0
    ensures RatedSets(history) != [] ==> avg * |RatedSets(history)| as real == RpeSum(RatedSets(history))
  {
    var rated := RatedSets(history);
    if |rated| == 0 then 7.0
    else
      var sum, n := RpeSum(rated), |rated| as real;
      DivThenMul(sum, n);
      sum / n
  }

  lemma DivThenMul(a: real, b: real)
    requires b != 0.0
    ensures (a / b) * b == a
  {
  }

  lemma {:induction false} AllSetsMember(history: seq<HistoryEntry>, s: WorkoutSet)
    requires s in AllSets(history)
    ensures exists i, j :: 0 <= i < |history| && 0 <= j < |history[i].sets| && history[i].sets[j] == s
  {
    if s in history[0].sets {
      var j :| 0 <= j < |history[0].sets| && history[0].sets[j] == s;
      assert history[0].sets[j] == s;
    } else {
      AllSetsMember(history[1..], s);
      var i, j :| 0 <= i < |history[1..]| && 0 <= j < |history[1..][i].sets| && history[1..][i].sets[j] == s;
      assert history[i + 1].sets[j] == s;
    }
  }

  lemma {:induction false} RpeSumBounds(sets: seq<WorkoutSet>, lo: real, hi: real)
    requires forall i :: 0 <= i < |sets| ==> sets[i].rpe.Some? && lo <= sets[i].rpe.value <= hi
    ensures lo * |sets| as real <= RpeSum(sets) <= hi * |sets| as real
  {
    if sets != [] {
      RpeSumBounds(sets[1..], lo, hi);
    }
  }

  /** When every recorded RPE lies on the 0 to 10 scale, so does the average. */
  lemma AverageRPEOnScale(history: seq<HistoryEntry>)
    requires forall i, j :: 0 <= i < |history| && 0 <= j < |history[i].sets| && IsRated(history[i].sets[j]) ==>
      0.0 <= history[i].sets[j].rpe.value <= 10.0
    ensures 0.0 <= AverageRPE(history) <= 10.0
  {
    var rated := RatedSets(history);
    if rated != [] {
      forall k | 0 <= k < |rated|
        ensures rated[k].rpe.Some? && 0.0 <= rated[k].rpe.value <= 10.0
      {
        AllSetsMember(history, rated[k]);
      }
      RpeSumBounds(rated, 0.0, 10.0);
      MeanWithinBounds(RpeSum(rated), |rated|, 0.0, 10.0);
    }
  }

  /** A mean of values between lo and hi lies between lo and hi. */
  lemma MeanWithinBounds(sum: real, n: nat, lo: real, hi: real)
    requires n > 0 && lo * n as real <= sum <= hi * n as real
    ensures lo <= sum / n as real <= hi
  {
  }

  /** history.every(h => h.sets.every(s => s.completed)): the same as every flattened set being completed. */
  function AllSetsCompleted(history: seq<HistoryEntry>): (b: bool)
    ensures b <==> forall k :: 0 <= k < |AllSets(history)| ==> AllSets(history)[k].completed
  {
    NestedEveryIsFlatEvery(history);
    forall i, j :: 0 <= i < |history| && 0 <= j < |history[i].sets| ==> history[i].sets[j].completed
  }

  lemma NestedEveryIsFlatEvery(history: seq<HistoryEntry>)
    ensures (forall i, j :: 0 <= i < |history| && 0 <= j < |history[i].sets| ==> history[i].sets[j].completed) <==>
      (forall k :: 0 <= k < |AllSets(history)| ==> AllSets(history)[k].completed)
  {
    var flat := AllSets(history);
    if forall i, j :: 0 <= i < |history| && 0 <= j < |history[i].sets| ==> history[i].sets[j].completed {
      forall k | 0 <= k < |flat|
        ensures flat[k].completed
      {
        AllSetsMember(history, flat[k]);
      }
    }
    if forall k :: 0 <= k < |flat| ==> flat[k].completed {
      forall i, j | 0 <= i < |history| && 0 <= j < |history[i].sets|
        ensures history[i].sets[j].completed
      {
        AllSetsContains(history, i, j);
      }
    }
  }

  /** Every set of every session is among the flattened sets. */
  lemma {:induction false} AllSetsContains(history: seq<HistoryEntry>, i: int, j: int)
    requires 0 <= i < |history| && 0 <= j < |history[i].sets|
    ensures history[i].sets[j] in AllSets(history)
  {
    if i > 0 {
      AllSetsContains(history[1..], i - 1, j);
    }
  }

  // ---------------------------------------------------------------------------
  // Last working weight

  /** The heaviest completed set of a session (Math.max over the completed weights), if any. */
  function MaxCompletedWeight(sets: seq<WorkoutSet>): (m: Option<real>)
    ensures m.None? <==> forall j :: 0 <= j < |sets| ==> !sets[j].completed
    ensures m.Some? ==> forall j :: 0 <= j < |sets| && sets[j].completed ==> sets[j].weight <= m.value
    ensures m.Some? ==> exists j :: 0 <= j < |sets| && sets[j].completed && sets[j].weight == m.value
  {
    if sets == [] then None
    else
      var rest := MaxCompletedWeight(sets[1..]);
      assert forall j :: 1 <= j < |sets| ==> sets[j] == sets[1..][j - 1];
      if !sets[0].completed then rest
      else if rest.None? || rest.value < sets[0].weight then Some(sets[0].weight)
      else rest
  }

  /** The heaviest completed weight of the newest session; 0 without history or completed sets. */
  function LastWeight(history: seq<HistoryEntry>): (w: real)
    ensures history == [] ==> w == 0.0
    ensures history != [] && (forall j :: 0 <= j < |history[0].sets| ==> !history[0].sets[j].completed) ==> w == 0.0
    ensures history != [] ==> forall j :: 0 <= j < |history[0].sets| && history[0].sets[j].completed ==>
      history[0].sets[j].weight <= w
    ensures history != [] && (exists j :: 0 <= j < |history[0].sets| && history[0].sets[j].completed)
      ==> exists j :: 0 <= j < |history[0].sets| && history[0].sets[j].completed && history[0].sets[j].weight == w
  {
    if |history| == 0 then 0.0
    else match MaxCompletedWeight(history[0].sets)
      case None => 0.0
      case Some(m) => m
  }

  // ---------------------------------------------------------------------------
  // Weeks since the last deload

  /** A newer session whose best weight fell below 90% of the next older one's marks a deload. */
  predicate IsDrop(newer: HistoryEntry, older: HistoryEntry)
  {
    LastWeight([newer]) < LastWeight([older]) * 0.9
  }

  predicate HasDeloadDrop(history: seq<HistoryEntry>)
  {
    exists i :: 1 <= i < |history| && IsDrop(history[i - 1], history[i])
  }

  /** Whole weeks between two instants, in either direction. */
  function WeeksBetween(now: int, date: int): (weeks: int)
    ensures weeks >= 0
  {
    (AbsReal((now - date) as real / MillisPerDay as real) / 7.0).Floor
  }

  /** 0 for fewer than two sessions or once any consecutive pair shows a drop; otherwise the age in whole weeks of the oldest session. */
  function WeeksWithoutDeload(history: seq<HistoryEntry>, now: int): (w: int)
    ensures w >= 0
    ensures |history| < 2 || HasDeloadDrop(history) ==> w == 0
    ensures w > 0 ==>
      && |history| >= 2 && !HasDeloadDrop(history)
      && (now - history[|history| - 1].date >= 7 * MillisPerDay || history[|history| - 1].date - now >= 7 * MillisPerDay)
  {
    if |history| < 2 || HasDeloadDrop(history) then 0
    else WeeksBetween(now, history[|history| - 1].date)
  }

  /** The loop of the advisor: walks consecutive pairs, keeps overwriting the week count, and stops at the first drop. */
  method WeeksSinceDeload(history: seq<HistoryEntry>, now: int) returns (weeks: int)
    ensures weeks == WeeksWithoutDeload(history, now)
    ensures weeks >= 0
  {
    if |history| < 2 {
      return 0;
    }
    weeks := 0;
    var foundDeload := false;
    var i := 1;
    while i < |history|
      invariant 1 <= i <= |history|
      invariant !foundDeload
      invariant forall k :: 1 <= k < i ==> !IsDrop(history[k - 1], history[k])
      invariant weeks == if i == 1 then 0 else WeeksBetween(now, history[i - 1].date)
    {
      var currentWeight := LastWeight([history[i - 1]]);
      var previousWeight := LastWeight([history[i]]);
      if currentWeight < previousWeight * 0.9 {
        foundDeload := true;
        assert IsDrop(history[i - 1], history[i]);
        break;
      }
      var daysDiff := AbsReal((now - history[i].date) as real / MillisPerDay as real);
      weeks := (daysDiff / 7.0).Floor;
      i := i + 1;
    }
    if foundDeload {
      weeks := 0;
    }
  }

  // ---------------------------------------------------------------------------
  // Weight suggestion

  /** The three newest sessions (history.slice(0, 3)). */
  function Recent(history: seq<HistoryEntry>): (r: seq<HistoryEntry>)
    ensures |r| == Min(3, |history|) && r == history[..|r|]
  {
    history[..Min(3, |history|)]
  }

  /** The rules in order: no history, deload, increase, and three kinds of holding the weight. The target repetitions are not consulted. */
  function SuggestWeight(exercise: Exercise, targetReps: int, history: seq<HistoryEntry>, now: int): (r: WeightSuggestion)
    ensures history == [] ==> r == WeightSuggestion(Maintain, None, 0.0, NoHistory)
    ensures r.kind != Decrease
    ensures history != [] ==> (r.kind == Deload <==> WeeksWithoutDeload(history, now) >= 5)
    ensures r.kind == Deload ==> r.amount == Some(-10.0) && r.reason == DeloadWeek
    ensures r.kind == Increase <==>
      && |history| >= 2
      && WeeksWithoutDeload(history, now) < 5
      && AllSetsCompleted(Recent(history))
      && AverageRPE(Recent(history)) < 8.0
    ensures r.kind == Increase ==> r.reason == SteadyLowEffort
    ensures r.kind == Increase ==>
      r.amount == Some(WeightIncrement(exercise)) && r.suggestedWeight == LastWeight(history) + WeightIncrement(exercise)
    ensures r.kind == Maintain ==> r.amount.None? && r.suggestedWeight == LastWeight(history)
    ensures r.reason == HighEffort ==> r.kind == Maintain && AverageRPE(Recent(history)) > 9.0
    ensures r.reason == UnfinishedSets ==> r.kind == Maintain && !AllSetsCompleted(Recent(history))
    ensures history != [] && r.kind == Maintain ==>
      r.reason == (if AverageRPE(Recent(history)) > 9.0 then HighEffort
                   else if !AllSetsCompleted(Recent(history)) then UnfinishedSets
                   else Hold)
  {
    if |history| == 0 then
      WeightSuggestion(Maintain, None, 0.0, NoHistory)
    else
      var lastWeight := LastWeight(history);
      var increment := WeightIncrement(exercise);
      var recentHistory := Recent(history);
      var avgRPE := AverageRPE(recentHistory);
      var weeksWithoutDeload := WeeksWithoutDeload(history, now);
      if weeksWithoutDeload >= 5 then
        var deloadWeight := Round(lastWeight * 0.9 / increment) as real * increment;
        WeightSuggestion(Deload, Some(-10.0), deloadWeight, DeloadWeek)
      else if |recentHistory| >= 2 && AllSetsCompleted(recentHistory) && avgRPE < 8.0 then
        WeightSuggestion(Increase, Some(increment), lastWeight + increment, SteadyLowEffort)
      else if avgRPE > 9.0 then
        WeightSuggestion(Maintain, None, lastWeight, HighEffort)
      else if !AllSetsCompleted(recentHistory) then
        WeightSuggestion(Maintain, None, lastWeight, UnfinishedSets)
      else
        WeightSuggestion(Maintain, None, lastWeight, Hold)
  }

  /** A deload suggests the multiple of the increment nearest to 90% of the last weight. */
  lemma DeloadRoundsToIncrement(exercise: Exercise, targetReps: int, history: seq<HistoryEntry>, now: int)
    requires SuggestWeight(exercise, targetReps, history, now).kind == Deload
    ensures var r := SuggestWeight(exercise, targetReps, history, now);
      var inc := WeightIncrement(exercise);
      && (r.suggestedWeight / inc).Floor as real == r.suggestedWeight / inc
      && LastWeight(history) * 0.9 - inc / 2.0 < r.suggestedWeight <= LastWeight(history) * 0.9 + inc / 2.0
  {
    var inc := WeightIncrement(exercise);
    var target := LastWeight(history) * 0.9;
    var k := Round(target / inc);
    assert SuggestWeight(exercise, targetReps, history, now).suggestedWeight == k as real * inc;
    assert (k as real * inc) / inc == k as real;
    if inc == 2.5 {
      assert target / inc * 2.5 == target;
    } else {
      assert target / inc * 1.25 == target;
    }
  }

  /** Without any 10% drop, once the oldest session is five weeks old the advisor calls a deload. */
  lemma DeloadAfterFiveSteadyWeeks(exercise: Exercise, targetReps: int, history: seq<HistoryEntry>, now: int)
    requires |history| >= 2
    requires forall i :: 1 <= i < |history| ==> 0.0 <= LastWeight([history[i]]) <= LastWeight([history[i - 1]])
    requires now - history[|history| - 1].date >= 35 * MillisPerDay
    ensures SuggestWeight(exercise, targetReps, history, now).kind == Deload
  {
    assert !HasDeloadDrop(history) by {
      forall i | 1 <= i < |history|
        ensures !IsDrop(history[i - 1], history[i])
      {
        assert LastWeight([history[i]]) * 0.9 <= LastWeight([history[i]]);
      }
    }
    var days := (now - history[|history| - 1].date) as real / MillisPerDay as real;
    assert days >= 35.0;
    assert WeeksBetween(now, history[|history| - 1].date) >= 5;
  }

  /** A 10% drop anywhere in the history rules a deload out. */
  lemma NoDeloadAfterDrop(exercise: Exercise, targetReps: int, history: seq<HistoryEntry>, now: int, i: int)
    requires 1 <= i < |history| && IsDrop(history[i - 1], history[i])
    ensures WeeksWithoutDeload(history, now) == 0
    ensures SuggestWeight(exercise, targetReps, history, now).kind != Deload
  {
  }

  // ---------------------------------------------------------------------------
  // Duration estimate

  /** 1.5 minutes of work and 2 of rest per set, plus 1 minute per exercise transition, rounded. */
  function EstimateWorkoutDuration(exerciseCount: int, setsPerExercise: int): (minutes: int)
    ensures minutes == (7 * exerciseCount * setsPerExercise + 2 * exerciseCount + 1) / 2
  {
    var totalSets := exerciseCount * setsPerExercise;
    var exact := totalSets as real * (1.5 + 2.0) + exerciseCount as real * 1.0;
    var n := 7 * totalSets + 2 * exerciseCount + 1;
    assert exact == (n - 1) as real / 2.0;
    RoundUnique(exact, n / 2);
    Round(exact)
  }

  /** More exercises or more sets never shorten the estimate. */
  lemma EstimateWorkoutDurationMonotone(e1: int, s1: int, e2: int, s2: int)
    requires 0 <= e1 <= e2 && 0 <= s1 <= s2
    ensures EstimateWorkoutDuration(e1, s1) <= EstimateWorkoutDuration(e2, s2)
  {
    assert e1 * s1 <= e2 * s1 <= e2 * s2 by {
      MulLeq(e1, e2, s1);
      MulLeq(s1, s2, e2);
    }
    var n1 := 7 * (e1 * s1) + 2 * e1 + 1;
    var n2 := 7 * (e2 * s2) + 2 * e2 + 1;
    assert n1 <= n2;
    assert 7 * e1 * s1 == 7 * (e1 * s1) && 7 * e2 * s2 == 7 * (e2 * s2);
  }

  lemma MulLeq(a: int, b: int, c: int)
    requires a <= b && c >= 0
    ensures a * c <= b * c
  {
  }

  // ---------------------------------------------------------------------------
  // Streak

  predicate Descending(s: seq<int>)
  {
    forall i, j :: 0 <= i < j < |s| ==> s[i] >= s[j]
  }

  function Insert(x: int, s: seq<int>): (r: seq<int>)
    requires Descending(s)
    ensures Descending(r) && multiset(r) == multiset(s) + multiset{x}
  {
    if s == [] || s[0] <= x then
      DescendingCons(x, s);
      [x] + s
    else
      var rest := Insert(x, s[1..]);
      InsertBelowHead(x, s, rest);
      [s[0]] + rest
  }

  /** A head no smaller than every element keeps a descending sequence descending. */
  lemma DescendingCons(h: int, t: seq<int>)
    requires Descending(t) && (t == [] || t[0] <= h)
    ensures Descending([h] + t)
  {
  }

  lemma InsertBelowHead(x: int, s: seq<int>, rest: seq<int>)
    requires Descending(s) && s != [] && x < s[0]
    requires Descending(rest) && multiset(rest) == multiset(s[1..]) + multiset{x}
    ensures Descending([s[0]] + rest) && multiset([s[0]] + rest) == multiset(s) + multiset{x}
  {
    assert s == [s[0]] + s[1..];
    if rest != [] {
      assert rest[0] in multiset(rest);
      if rest[0] != x {
        var j :| 0 <= j < |s[1..]| && s[1..][j] == rest[0];
        assert s[j + 1] == rest[0];
      }
    }
    DescendingCons(s[0], rest);
  }

  /** The day numbers newest first, a permutation of the input. */
  function SortDescending(s: seq<int>): (r: seq<int>)
    ensures Descending(r) && multiset(r) == multiset(s)
  {
    if s == [] then []
    else
      assert s == [s[0]] + s[1..];
      Insert(s[0], SortDescending(s[1..]))
  }

  lemma {:induction false} SortDescendingKeepsSorted(s: seq<int>)
    requires Descending(s)
    ensures SortDescending(s) == s
  {
    if s != [] {
      SortDescendingKeepsSorted(s[1..]);
      assert s == [s[0]] + s[1..];
    }
  }

  /** The number of consecutive newest-to-oldest gaps of at most two days, counted from the newest. */
  function GapRun(s: seq<int>): (n: nat)
    ensures n < |s| || n == 0
  {
    if |s| < 2 then 0 else if s[0] - s[1] <= 2 then 1 + GapRun(s[1..]) else 0
  }

  /** The streak of a descending list of day numbers seen from day `today`. */
  function Streak(sorted: seq<int>, today: int): (n: int)
    ensures 0 <= n <= |sorted|
    ensures n == 0 <==> |sorted| == 0 || today - sorted[0] > 2
  {
    if |sorted| == 0 || today - sorted[0] > 2 then 0 else 1 + GapRun(sorted)
  }

  /** GapRun stops exactly at the first gap wider than two days. */
  lemma {:induction false} GapRunStopsAtFirstWideGap(s: seq<int>, i: int)
    requires 1 <= i <= |s|
    requires forall k :: 1 <= k < i ==> s[k - 1] - s[k] <= 2
    requires i < |s| ==> s[i - 1] - s[i] > 2
    ensures GapRun(s) == i - 1
  {
    if i > 1 {
      GapRunStopsAtFirstWideGap(s[1..], i - 1);
    }
  }

  method GetStreak(workoutDays: seq<int>, today: int) returns (streak: int)
    ensures streak == Streak(SortDescending(workoutDays), today)
  {
    if |workoutDays| == 0 {
      return 0;
    }
    var sortedDays := SortDescending(workoutDays);
    var daysSinceLastWorkout := today - sortedDays[0];
    if daysSinceLastWorkout > 2 {
      return 0;
    }
    streak := 1;
    var i := 1;
    while i < |sortedDays|
      invariant 1 <= i <= |sortedDays|
      invariant streak == i
      invariant forall k :: 1 <= k < i ==> sortedDays[k - 1] - sortedDays[k] <= 2
    {
      var diff := sortedDays[i - 1] - sortedDays[i];
      if diff <= 2 {
        streak := streak + 1;
      } else {
        break;
      }
      i := i + 1;
    }
    GapRunStopsAtFirstWideGap(sortedDays, i);
  }

  /** A live streak counts the newest session and is never longer than the list. */
  lemma StreakBounds(workoutDays: seq<int>, today: int)
    ensures var n := Streak(SortDescending(workoutDays), today);
      && 0 <= n <= |workoutDays|
      && (n == 0 <==> workoutDays == [] || today - SortDescending(workoutDays)[0] > 2)
  {
    var sorted := SortDescending(workoutDays);
    assert |sorted| == |multiset(sorted)| == |workoutDays|;
  }

  /** Sessions today, yesterday and three days ago: gaps of one and two days, a streak of three. */
  lemma StreakExampleLive(today: int)
    ensures Streak(SortDescending([today, today - 1, today - 3]), today) == 3
  {
    ExampleDaysSorted(today);
    ExampleDaysStreak(today);
  }

  lemma ExampleDaysStreak(today: int)
    ensures Streak([today, today - 1, today - 3], today) == 3
  {
    var days := [today, today - 1, today - 3];
    GapRunStopsAtFirstWideGap(days, 3);
  }

  lemma ExampleDaysSorted(today: int)
    ensures SortDescending([today, today - 1, today - 3]) == [today, today - 1, today - 3]
  {
    DescendingCons(today - 3, []);
    DescendingCons(today - 1, [today - 3]);
    DescendingCons(today, [today - 1, today - 3]);
    SortDescendingKeepsSorted([today, today - 1, today - 3]);
  }

  /** A single session long before today leaves no streak. */
  lemma StreakExampleLapsed()
    ensures Streak(SortDescending([1]), 30) == 0
  {
    SortDescendingKeepsSorted([1]);
  }
}
