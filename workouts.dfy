// The workout session controller: at most one session in progress and an
// append-only archive of finished workouts. A session is started from a
// routine's exercise ids, edited set by set, navigated exercise by exercise,
// and then either archived as a Workout or discarded.
module Workouts {
  import opened Types
  import opened JsMath
  import Seqs

  const MillisPerMinute: int := 60000

  /** The session in progress: a snapshot of the routine plus the sets logged so far. */
  datatype ActiveWorkout = ActiveWorkout(
    routineId: Id,
    routineName: string,
    startTime: int,
    exercises: seq<WorkoutExercise>,
    currentExerciseIndex: int)

  /** A partial WorkoutSet: each present field overrides the set's own. */
  datatype SetPatch = SetPatch(reps: Option<int>, weight: Option<real>, rpe: Option<real>, completed: Option<bool>)

  /** The set every exercise starts a session with. */
  const BlankSet := WorkoutSet(0, 0.0, None, false)

  /** {...set, ...updates}: a field the patch carries replaces the set's own, and the others are kept. */
  function ApplySetPatch(s: WorkoutSet, p: SetPatch): (r: WorkoutSet)
    ensures p == SetPatch(None, None, None, None) ==> r == s
    ensures r.reps == (if p.reps.Some? then p.reps.value else s.reps)
    ensures r.completed == (if p.completed.Some? then p.completed.value else s.completed)
    ensures r.rpe == (if p.rpe.Some? then p.rpe else s.rpe)
    ensures r.weight == (if p.weight.Some? then p.weight.value else s.weight)
  {
    WorkoutSet(
      if p.reps.Some? then p.reps.value else s.reps,
      if p.weight.Some? then p.weight.value else s.weight,
      if p.rpe.Some? then p.rpe else s.rpe,
      if p.completed.Some? then p.completed.value else s.completed)
  }

  /** Every exercise keeps at least one set, and the cursor points at an exercise (or is 0 when there are none). */
  ghost predicate SessionInvariant(a: ActiveWorkout)
  {
    && (forall k :: 0 <= k < |a.exercises| ==> |a.exercises[k].sets| >= 1)
    && 0 <= a.currentExerciseIndex
    && (a.currentExerciseIndex < |a.exercises| || a.currentExerciseIndex == 0)
  }

  /** b differs from a at most in the sets of exercise `ei`. */
  ghost predicate OnlySetsOfExerciseChanged(a: ActiveWorkout, b: ActiveWorkout, ei: int)
  {
    && b.routineId == a.routineId
    && b.routineName == a.routineName
    && b.startTime == a.startTime
    && b.currentExerciseIndex == a.currentExerciseIndex
    && |b.exercises| == |a.exercises|
    && 0 <= ei < |a.exercises|
    && b.exercises[ei].exerciseId == a.exercises[ei].exerciseId
    && forall k :: 0 <= k < |a.exercises| && k != ei ==> b.exercises[k] == a.exercises[k]
  }

  class WorkoutStore {
    var workouts: seq<Workout>
    var activeWorkout: Option<ActiveWorkout>

    ghost predicate Valid()
      reads this
    {
      activeWorkout.Some? ==> SessionInvariant(activeWorkout.value)
    }

    constructor()
      ensures Valid()
      ensures workouts == [] && activeWorkout == None
    {
      workouts := [];
      activeWorkout := None;
    }

    /** Opens a session with one blank set per exercise id, replacing any session already open. */
    method StartWorkout(routineId: Id, routineName: string, exerciseIds: seq<Id>, now: int)
      modifies this
      ensures Valid()
      ensures workouts == old(workouts)
      ensures activeWorkout.Some?
      ensures var a := activeWorkout.value;
        && a.routineId == routineId && a.routineName == routineName
        && a.startTime == now && a.currentExerciseIndex == 0
        && |a.exercises| == |exerciseIds|
        && forall k :: 0 <= k < |exerciseIds| ==> a.exercises[k] == WorkoutExercise(exerciseIds[k], [BlankSet])
    {
      var exercises := seq(|exerciseIds|, k requires 0 <= k < |exerciseIds| => WorkoutExercise(exerciseIds[k], [BlankSet]));
      activeWorkout := Some(ActiveWorkout(routineId, routineName, now, exercises, 0));
    }

    /** Merges `updates` into set `setIndex` of exercise `exerciseIndex`; any other index touches nothing. */
    method UpdateSet(exerciseIndex: int, setIndex: int, updates: SetPatch)
      requires activeWorkout.Some? ==> 0 <= exerciseIndex < |activeWorkout.value.exercises|
      modifies this
      ensures old(Valid()) ==> Valid()
      ensures workouts == old(workouts)
      ensures old(activeWorkout).None? ==> activeWorkout == old(activeWorkout)
      ensures old(activeWorkout).Some? ==> activeWorkout.Some?
      ensures old(activeWorkout).Some? ==>
        OnlySetsOfExerciseChanged(old(activeWorkout).value, activeWorkout.value, exerciseIndex)
      ensures old(activeWorkout).Some? ==>
        var a, b := old(activeWorkout).value, activeWorkout.value;
        var before, after := a.exercises[exerciseIndex].sets, b.exercises[exerciseIndex].sets;
        && |after| == |before|
        && forall j :: 0 <= j < |before| ==>
             after[j] == if j == setIndex then ApplySetPatch(before[j], updates) else before[j]
    {
      if activeWorkout.None? {
        return;
      }
      var a := activeWorkout.value;
      var exercise := a.exercises[exerciseIndex];
      var sets := seq(|exercise.sets|, j requires 0 <= j < |exercise.sets| =>
        if j == setIndex then ApplySetPatch(exercise.sets[j], updates) else exercise.sets[j]);
      activeWorkout := Some(a.(exercises := a.exercises[exerciseIndex := exercise.(sets := sets)]));
    }

    /** Appends a set that repeats the last set's repetitions and weight, not yet completed and without RPE. */
    method AddSet(exerciseIndex: int)
      requires activeWorkout.Some? ==> 0 <= exerciseIndex < |activeWorkout.value.exercises|
      modifies this
      ensures old(Valid()) ==> Valid()
      ensures workouts == old(workouts)
      ensures old(activeWorkout).None? ==> activeWorkout == old(activeWorkout)
      ensures old(activeWorkout).Some? ==> activeWorkout.Some?
      ensures old(activeWorkout).Some? ==>
        OnlySetsOfExerciseChanged(old(activeWorkout).value, activeWorkout.value, exerciseIndex)
      ensures old(activeWorkout).Some? ==>
        var a, b := old(activeWorkout).value, activeWorkout.value;
        var before, after := a.exercises[exerciseIndex].sets, b.exercises[exerciseIndex].sets;
        && |after| == |before| + 1
        && after[..|before|] == before
        && after[|before|].reps == (if before == [] then 0 else before[|before| - 1].reps)
        && after[|before|].weight == (if before == [] then 0.0 else before[|before| - 1].weight)
        && after[|before|].rpe.None? && !after[|before|].completed
    {
      if activeWorkout.None? {
        return;
      }
      var a := activeWorkout.value;
      var exercise := a.exercises[exerciseIndex];
      var sets := exercise.sets;
      var reps := if |sets| == 0 then 0 else sets[|sets| - 1].reps;
      var weight := if |sets| == 0 then 0.0 else sets[|sets| - 1].weight;
      var newSets := sets + [WorkoutSet(reps, weight, None, false)];
      activeWorkout := Some(a.(exercises := a.exercises[exerciseIndex := exercise.(sets := newSets)]));
    }

    /** Removes set `setIndex` unless it would leave the exercise without sets. */
    method RemoveSet(exerciseIndex: int, setIndex: int)
      requires activeWorkout.Some? ==> 0 <= exerciseIndex < |activeWorkout.value.exercises|
      modifies this
      ensures old(Valid()) ==> Valid()
      ensures workouts == old(workouts)
      ensures old(activeWorkout).None? ==> activeWorkout == old(activeWorkout)
      ensures old(activeWorkout).Some? && |old(activeWorkout).value.exercises[exerciseIndex].sets| <= 1 ==>
        activeWorkout == old(activeWorkout)
      ensures old(activeWorkout).Some? ==> activeWorkout.Some?
      ensures old(activeWorkout).Some? && |old(activeWorkout).value.exercises[exerciseIndex].sets| > 1 ==>
        OnlySetsOfExerciseChanged(old(activeWorkout).value, activeWorkout.value, exerciseIndex)
      ensures old(activeWorkout).Some? && |old(activeWorkout).value.exercises[exerciseIndex].sets| > 1 ==>
        var a, b := old(activeWorkout).value, activeWorkout.value;
        var before, after := a.exercises[exerciseIndex].sets, b.exercises[exerciseIndex].sets;
        && |after| >= 1
        && after == if 0 <= setIndex < |before| then before[..setIndex] + before[setIndex + 1..] else before
    {
      if activeWorkout.None? {
        return;
      }
      var a := activeWorkout.value;
      var exercise := a.exercises[exerciseIndex];
      if |exercise.sets| <= 1 {
        return;
      }
      var sets := exercise.sets;
      var kept := if 0 <= setIndex < |sets| then sets[..setIndex] + sets[setIndex + 1..] else sets;
      activeWorkout := Some(a.(exercises := a.exercises[exerciseIndex := exercise.(sets := kept)]));
    }

    /** Moves the cursor one exercise forward; a no-op on the last exercise. */
    method NextExercise()
      modifies this
      ensures old(Valid()) ==> Valid()
      ensures workouts == old(workouts)
      ensures old(activeWorkout).None? ==> activeWorkout == old(activeWorkout)
      ensures old(activeWorkout).Some? ==>
        var a := old(activeWorkout).value;
        activeWorkout == Some(a.(currentExerciseIndex :=
          if a.currentExerciseIndex >= |a.exercises| - 1 then a.currentExerciseIndex else a.currentExerciseIndex + 1))
    {
      if activeWorkout.None? {
        return;
      }
      var a := activeWorkout.value;
      if a.currentExerciseIndex >= |a.exercises| - 1 {
        return;
      }
      activeWorkout := Some(a.(currentExerciseIndex := a.currentExerciseIndex + 1));
    }

    /** Moves the cursor one exercise back; a no-op on the first exercise. */
    method PreviousExercise()
      modifies this
      ensures old(Valid()) ==> Valid()
      ensures workouts == old(workouts)
      ensures old(activeWorkout).None? ==> activeWorkout == old(activeWorkout)
      ensures old(activeWorkout).Some? ==>
        var a := old(activeWorkout).value;
        activeWorkout == Some(a.(currentExerciseIndex :=
          if a.currentExerciseIndex <= 0 then a.currentExerciseIndex else a.currentExerciseIndex - 1))
    {
      if activeWorkout.None? {
        return;
      }
      var a := activeWorkout.value;
      if a.currentExerciseIndex <= 0 {
        return;
      }
      activeWorkout := Some(a.(currentExerciseIndex := a.currentExerciseIndex - 1));
    }

    /** Jumps to exercise `index`; indices outside the session are ignored. */
    method GoToExercise(index: int)
      modifies this
      ensures old(Valid()) ==> Valid()
      ensures workouts == old(workouts)
      ensures old(activeWorkout).None? ==> activeWorkout == old(activeWorkout)
      ensures old(activeWorkout).Some? ==>
        var a := old(activeWorkout).value;
        activeWorkout == Some(a.(currentExerciseIndex :=
          if 0 <= index < |a.exercises| then index else a.currentExerciseIndex))
    {
      if activeWorkout.None? {
        return;
      }
      var a := activeWorkout.value;
      if index < 0 || index >= |a.exercises| {
        return;
      }
      activeWorkout := Some(a.(currentExerciseIndex := index));
    }

    /** Archives the session as one Workout dated at its start, closes it and returns the new id. */
    method FinishWorkout(notes: Option<string>, now: int, freshId: Id) returns (id: Option<Id>)
      modifies this
      ensures Valid()
      ensures activeWorkout.None?
      ensures old(activeWorkout).None? ==> id.None? && workouts == old(workouts)
      ensures old(activeWorkout).Some? ==>
        var a := old(activeWorkout).value;
        && id == Some(freshId)
        && |workouts| == |old(workouts)| + 1
        && workouts[..|old(workouts)|] == old(workouts)
        && var w := workouts[|old(workouts)|];
           && w.id == freshId && w.routineId == a.routineId && w.routineName == a.routineName
           && w.date == a.startTime && w.exercises == a.exercises && w.notes == notes
           && (w.duration as real) * MillisPerMinute as real - 30000.0 <= (now - a.startTime) as real
           && (now - a.startTime) as real < (w.duration as real) * MillisPerMinute as real + 30000.0
    {
      if activeWorkout.None? {
        return None;
      }
      var a := activeWorkout.value;
      var duration := Round((now - a.startTime) as real / MillisPerMinute as real);
      var workout := Workout(freshId, a.routineId, a.routineName, a.startTime, duration, a.exercises, notes);
      workouts := workouts + [workout];
      activeWorkout := None;
      id := Some(freshId);
    }

    /** Discards the session; nothing is archived. */
    method CancelWorkout()
      modifies this
      ensures Valid()
      ensures activeWorkout.None? && workouts == old(workouts)
    {
      activeWorkout := None;
    }

    /** Empties the archive and discards the session (the in-memory half of a reset). */
    method ResetWorkout()
      modifies this
      ensures Valid()
      ensures activeWorkout.None? && workouts == []
    {
      workouts := [];
      activeWorkout := None;
    }

    /** The heaviest completed set ever logged for an exercise; ties keep the first one met in archive order. */
    method GetPersonalRecord(exerciseId: Id) returns (record: Option<PersonalRecord>)
      ensures record == BestRecord(Candidates(workouts, exerciseId))
      ensures record.None? <==> forall i :: 0 <= i < |workouts| ==> RecordsOf(workouts[i], exerciseId) == []
      ensures record.Some? ==> forall i, k :: 0 <= i < |workouts| && 0 <= k < |RecordsOf(workouts[i], exerciseId)| ==>
        RecordsOf(workouts[i], exerciseId)[k].weight <= record.value.weight
    {
      record := None;
      var i := 0;
      while i < |workouts|
        invariant 0 <= i <= |workouts|
        invariant record == BestRecord(Candidates(workouts[..i], exerciseId))
      {
        var workout := workouts[i];
        var exercise := FirstExercise(workout.exercises, exerciseId);
        ghost var done := Candidates(workouts[..i], exerciseId);
        CandidatesStep(workouts, exerciseId, i);
        if exercise.Some? {
          var sets := exercise.value.sets;
          var j := 0;
          assert sets[..0] == [] && done + [] == done;
          while j < |sets|
            invariant 0 <= j <= |sets|
            invariant record == BestRecord(done + CompletedRecords(sets[..j], workout.date))
          {
            var s := sets[j];
            RecordScanStep(done, sets, j, workout.date);
            if s.completed && (record.None? || s.weight > record.value.weight) {
              record := Some(PersonalRecord(s.weight, s.reps, workout.date));
            }
            j := j + 1;
          }
          assert sets[..|sets|] == sets;
          assert RecordsOf(workout, exerciseId) == CompletedRecords(sets, workout.date);
        } else {
          assert RecordsOf(workout, exerciseId) == [] && done + [] == done;
        }
        i := i + 1;
      }
      assert workouts[..|workouts|] == workouts;
      RecordIsHeaviestCandidate(workouts, exerciseId);
    }
  }

  // ---------------------------------------------------------------------------
  // History queries over the archive

  /** w.exercises.some(e => e.exerciseId === exerciseId). */
  predicate HasExercise(w: Workout, exerciseId: Id)
  {
    exists k :: 0 <= k < |w.exercises| && w.exercises[k].exerciseId == exerciseId
  }

  /** The archived workouts that include the exercise, in archive order. */
  function WorkoutsByExercise(workouts: seq<Workout>, exerciseId: Id): (r: seq<Workout>)
    ensures forall k :: 0 <= k < |r| ==> r[k] in workouts && HasExercise(r[k], exerciseId)
    ensures forall k :: 0 <= k < |workouts| && HasExercise(workouts[k], exerciseId) ==> workouts[k] in r
  {
    Seqs.Filter(workouts, w => HasExercise(w, exerciseId))
  }

  /** Archiving one more workout extends the query's answer by that workout exactly when it includes the exercise. */
  lemma WorkoutsByExerciseAppend(workouts: seq<Workout>, w: Workout, exerciseId: Id)
    ensures WorkoutsByExercise(workouts + [w], exerciseId)
      == WorkoutsByExercise(workouts, exerciseId) + (if HasExercise(w, exerciseId) then [w] else [])
  {
    Seqs.FilterAppend(workouts, [w], w => HasExercise(w, exerciseId));
    assert [w][1..] == [];
  }

  /** Array.prototype.find: the first exercise entry with the given id. */
  function FirstExercise(exercises: seq<WorkoutExercise>, exerciseId: Id): (r: Option<WorkoutExercise>)
    ensures r.None? <==> forall k :: 0 <= k < |exercises| ==> exercises[k].exerciseId != exerciseId
    ensures r.Some? ==>
      exists k :: 0 <= k < |exercises| && exercises[k] == r.value && exercises[k].exerciseId == exerciseId &&
        forall j :: 0 <= j < k ==> exercises[j].exerciseId != exerciseId
  {
    if exercises == [] then None
    else if exercises[0].exerciseId == exerciseId then Some(exercises[0])
    else
      var r := FirstExercise(exercises[1..], exerciseId);
      assert forall k :: 1 <= k < |exercises| ==> exercises[k] == exercises[1..][k - 1];
      r
  }

  /** The some of the filter and the find of the lookup agree: a workout includes the exercise exactly when its entry is found. */
  lemma HasExerciseIffFound(w: Workout, exerciseId: Id)
    ensures HasExercise(w, exerciseId) <==> FirstExercise(w.exercises, exerciseId).Some?
  {
    if HasExercise(w, exerciseId) {
      var k :| 0 <= k < |w.exercises| && w.exercises[k].exerciseId == exerciseId;
    }
  }

  /** The latest workout that includes the exercise; among equally dated ones, the first archived (a stable sort by date, newest first, then its head). */
  function LatestWorkoutWith(workouts: seq<Workout>, exerciseId: Id): (r: Option<Workout>)
    ensures r.None? <==> forall k :: 0 <= k < |workouts| ==> !HasExercise(workouts[k], exerciseId)
    ensures r.Some? ==>
      exists k :: 0 <= k < |workouts| && workouts[k] == r.value && HasExercise(workouts[k], exerciseId) &&
        (forall j :: 0 <= j < |workouts| && HasExercise(workouts[j], exerciseId) ==> workouts[j].date <= r.value.date) &&
        (forall j :: 0 <= j < k && HasExercise(workouts[j], exerciseId) ==> workouts[j].date < r.value.date)
  {
    if workouts == [] then None
    else
      var rest := LatestWorkoutWith(workouts[1..], exerciseId);
      assert forall k :: 1 <= k < |workouts| ==> workouts[k] == workouts[1..][k - 1];
      if !HasExercise(workouts[0], exerciseId) then rest
      else if rest.None? || rest.value.date <= workouts[0].date then Some(workouts[0])
      else rest
  }

  /** The exercise entry of the latest workout that includes the exercise, or None. */
  function GetLastWorkoutForExercise(workouts: seq<Workout>, exerciseId: Id): (r: Option<WorkoutExercise>)
    ensures r.None? <==> forall k :: 0 <= k < |workouts| ==> !HasExercise(workouts[k], exerciseId)
    ensures r.Some? ==> r.value.exerciseId == exerciseId
    ensures r.Some? ==>
      exists k :: 0 <= k < |workouts| && r == FirstExercise(workouts[k].exercises, exerciseId) &&
        forall j :: 0 <= j < |workouts| && HasExercise(workouts[j], exerciseId) ==> workouts[j].date <= workouts[k].date
  {
    match LatestWorkoutWith(workouts, exerciseId)
    case None => None
    case Some(w) => FirstExercise(w.exercises, exerciseId)
  }

  // ---------------------------------------------------------------------------
  // Personal record

  datatype PersonalRecord = PersonalRecord(weight: real, reps: int, date: int)

  /** The completed sets among `sets`, in order, as records dated `date`. */
  function CompletedRecords(sets: seq<WorkoutSet>, date: int): (r: seq<PersonalRecord>)
    ensures |r| <= |sets|
  {
    if sets == [] then []
    else
      var last := sets[|sets| - 1];
      CompletedRecords(sets[..|sets| - 1], date) + (if last.completed then [PersonalRecord(last.weight, last.reps, date)] else [])
  }

  /** The candidates one workout offers: the completed sets of its first entry for the exercise. */
  function RecordsOf(w: Workout, exerciseId: Id): seq<PersonalRecord>
  {
    match FirstExercise(w.exercises, exerciseId)
    case None => []
    case Some(e) => CompletedRecords(e.sets, w.date)
  }

  /** All candidates in the order the record search meets them. */
  function Candidates(workouts: seq<Workout>, exerciseId: Id): seq<PersonalRecord>
  {
    if workouts == [] then []
    else Candidates(workouts[..|workouts| - 1], exerciseId) + RecordsOf(workouts[|workouts| - 1], exerciseId)
  }

  /** The search: a later candidate replaces the record only when strictly heavier. */
  function BestRecord(cs: seq<PersonalRecord>): Option<PersonalRecord>
  {
    if cs == [] then None
    else
      var previous := BestRecord(cs[..|cs| - 1]);
      var c := cs[|cs| - 1];
      if previous.None? || c.weight > previous.value.weight then Some(c) else previous
  }

  /** The record is the first of the heaviest candidates, and there is one exactly when some candidate exists. */
  lemma {:induction false} BestRecordIsHeaviest(cs: seq<PersonalRecord>)
    ensures BestRecord(cs).None? <==> cs == []
    ensures BestRecord(cs).Some? ==>
      exists k :: 0 <= k < |cs| && cs[k] == BestRecord(cs).value && forall j :: 0 <= j < k ==> cs[j].weight < cs[k].weight
    ensures BestRecord(cs).Some? ==> forall j :: 0 <= j < |cs| ==> cs[j].weight <= BestRecord(cs).value.weight
  {
    if cs != [] {
      var init := cs[..|cs| - 1];
      BestRecordIsHeaviest(init);
      assert forall j :: 0 <= j < |init| ==> cs[j] == init[j];
      var previous := BestRecord(init);
      var c := cs[|cs| - 1];
      if previous.Some? && c.weight <= previous.value.weight {
        var k :| 0 <= k < |init| && init[k] == previous.value && (forall j :: 0 <= j < k ==> init[j].weight < init[k].weight);
        assert cs[k] == BestRecord(cs).value;
      } else {
        assert cs[|cs| - 1] == BestRecord(cs).value;
      }
    }
  }

  /** Some workout offers a candidate exactly when the candidate list is non-empty. */
  lemma {:induction false} CandidatesNonEmpty(workouts: seq<Workout>, exerciseId: Id)
    requires Candidates(workouts, exerciseId) != []
    ensures exists i :: 0 <= i < |workouts| && RecordsOf(workouts[i], exerciseId) != []
  {
    var n := |workouts| - 1;
    var init := workouts[..n];
    if RecordsOf(workouts[n], exerciseId) == [] {
      assert Candidates(init, exerciseId) != [];
      CandidatesNonEmpty(init, exerciseId);
      var i :| 0 <= i < |init| && RecordsOf(init[i], exerciseId) != [];
      assert workouts[i] == init[i];
    }
  }

  /** One more workout adds its own candidates after those met so far. */
  lemma CandidatesStep(workouts: seq<Workout>, exerciseId: Id, i: int)
    requires 0 <= i < |workouts|
    ensures Candidates(workouts[..i + 1], exerciseId) == Candidates(workouts[..i], exerciseId) + RecordsOf(workouts[i], exerciseId)
  {
    assert workouts[..i + 1][..i] == workouts[..i];
  }

  /** One more set: a completed set strictly heavier than the record so far replaces it. */
  lemma RecordScanStep(done: seq<PersonalRecord>, sets: seq<WorkoutSet>, j: int, date: int)
    requires 0 <= j < |sets|
    ensures var previous := BestRecord(done + CompletedRecords(sets[..j], date));
      BestRecord(done + CompletedRecords(sets[..j + 1], date)) ==
        if sets[j].completed && (previous.None? || sets[j].weight > previous.value.weight)
        then Some(PersonalRecord(sets[j].weight, sets[j].reps, date))
        else previous
  {
    var s := sets[j];
    assert sets[..j + 1][..j] == sets[..j];
    var before := done + CompletedRecords(sets[..j], date);
    if s.completed {
      var c := PersonalRecord(s.weight, s.reps, date);
      assert done + CompletedRecords(sets[..j + 1], date) == before + [c];
      assert (before + [c])[..|before|] == before;
    } else {
      assert done + CompletedRecords(sets[..j + 1], date) == before;
    }
  }

  /** What the record search promises: nothing exactly when no candidate exists, otherwise a weight no candidate exceeds. */
  lemma RecordIsHeaviestCandidate(workouts: seq<Workout>, exerciseId: Id)
    ensures var r := BestRecord(Candidates(workouts, exerciseId));
      && (r.None? <==> forall i :: 0 <= i < |workouts| ==> RecordsOf(workouts[i], exerciseId) == [])
      && (r.Some? ==> forall i, k :: 0 <= i < |workouts| && 0 <= k < |RecordsOf(workouts[i], exerciseId)| ==>
            RecordsOf(workouts[i], exerciseId)[k].weight <= r.value.weight)
  {
    var cs := Candidates(workouts, exerciseId);
    BestRecordIsHeaviest(cs);
    if BestRecord(cs).None? {
      forall i | 0 <= i < |workouts|
        ensures RecordsOf(workouts[i], exerciseId) == []
      {
        if RecordsOf(workouts[i], exerciseId) != [] {
          CandidatesContain(workouts, exerciseId, i, 0);
        }
      }
    } else {
      CandidatesNonEmpty(workouts, exerciseId);
      forall i, k | 0 <= i < |workouts| && 0 <= k < |RecordsOf(workouts[i], exerciseId)|
        ensures RecordsOf(workouts[i], exerciseId)[k].weight <= BestRecord(cs).value.weight
      {
        CandidatesContain(workouts, exerciseId, i, k);
      }
    }
  }

  lemma {:induction false} CandidatesContain(workouts: seq<Workout>, exerciseId: Id, i: int, k: int)
    requires 0 <= i < |workouts| && 0 <= k < |RecordsOf(workouts[i], exerciseId)|
    ensures RecordsOf(workouts[i], exerciseId)[k] in Candidates(workouts, exerciseId)
  {
    var init := workouts[..|workouts| - 1];
    if i < |workouts| - 1 {
      assert workouts[i] == init[i];
      CandidatesContain(init, exerciseId, i, k);
    }
  }

  // ---------------------------------------------------------------------------
  // Client scenarios

  /** Two exercises, one completed set each, then finish: the archived workout has both. */
  method EndToEndSession(routineId: Id, routineName: string, first: Id, second: Id, start: int, end: int, freshId: Id)
    returns (archived: Workout)
    requires start <= end
    ensures |archived.exercises| == 2
    ensures |archived.exercises[0].sets| == 1 && |archived.exercises[1].sets| == 1
    ensures archived.exercises[0].sets[0].completed && archived.exercises[1].sets[0].completed
    ensures archived.exercises[0].sets[0].weight == 80.0 && archived.exercises[1].sets[0].weight == 40.0
    ensures archived.duration >= 0
  {
    var store := new WorkoutStore();
    store.StartWorkout(routineId, routineName, [first, second], start);
    store.RemoveSet(0, 0);
    assert |store.activeWorkout.value.exercises[0].sets| == 1;
    store.UpdateSet(0, 0, SetPatch(Some(5), Some(80.0), None, Some(true)));
    store.NextExercise();
    store.UpdateSet(1, 0, SetPatch(Some(8), Some(40.0), None, Some(true)));
    var id := store.FinishWorkout(None, end, freshId);
    archived := store.workouts[0];
  }

  /** Finishing with no session archives nothing; cancelling a session archives nothing either. */
  method CancelArchivesNothing(routineId: Id, routineName: string, ids: seq<Id>, now: int, freshId: Id)
    returns (id: Option<Id>, archived: nat)
    ensures id.None? && archived == 0
  {
    var store := new WorkoutStore();
    id := store.FinishWorkout(None, now, freshId);
    store.StartWorkout(routineId, routineName, ids, now);
    store.CancelWorkout();
    archived := |store.workouts|;
  }
}
