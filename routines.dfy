// The routine repository and the exercise catalog. Routines are named,
// ordered lists of exercise prescriptions; every change to a routine stamps
// its `updatedAt`. The catalog holds the built-in exercises plus the user's
// own; only custom exercises can be edited, and a custom exercise that some
// routine still refers to cannot be deleted.
module Routines {
  import opened Types
  import Seqs

  /** A partial Routine (without id and createdAt): each present field overrides the routine's own. */
  datatype RoutinePatch = RoutinePatch(name: Option<string>, description: Option<string>, exercises: Option<seq<RoutineExercise>>)

  /** A RoutineExercise before it is given an id. */
  datatype RoutineExerciseDraft = RoutineExerciseDraft(
    exerciseId: Id, sets: int, reps: int, restSeconds: int, targetWeight: Option<real>)

  /** A partial RoutineExercise. */
  datatype RoutineExercisePatch = RoutineExercisePatch(
    id: Option<Id>, exerciseId: Option<Id>, sets: Option<int>, reps: Option<int>,
    restSeconds: Option<int>, targetWeight: Option<real>)

  /** An Exercise before it is given an id and flagged custom. */
  datatype ExerciseDraft = ExerciseDraft(
    name: string, muscleGroup: MuscleGroup, secondaryMuscles: Option<seq<MuscleGroup>>,
    equipment: Equipment, instructions: Option<string>)

  /** A partial Exercise (without id and isCustom). */
  datatype ExercisePatch = ExercisePatch(
    name: Option<string>, muscleGroup: Option<MuscleGroup>, secondaryMuscles: Option<seq<MuscleGroup>>,
    equipment: Option<Equipment>, instructions: Option<string>)

  /** {...r, ...updates}: the patch cannot reach the id or the timestamps, and an empty patch changes nothing. */
  function ApplyRoutinePatch(r: Routine, p: RoutinePatch): (q: Routine)
    ensures q.id == r.id && q.createdAt == r.createdAt && q.updatedAt == r.updatedAt
    ensures p == RoutinePatch(None, None, None) ==> q == r
    ensures q.name == (if p.name.Some? then p.name.value else r.name)
    ensures q.description == (if p.description.Some? then p.description else r.description)
    ensures q.exercises == (if p.exercises.Some? then p.exercises.value else r.exercises)
  {
    r.(name := if p.name.Some? then p.name.value else r.name,
       description := if p.description.Some? then p.description else r.description,
       exercises := if p.exercises.Some? then p.exercises.value else r.exercises)
  }

  /** {...e, ...updates} over a full Partial<RoutineExercise>: the entry id changes exactly when the patch carries one. */
  function ApplyRoutineExercisePatch(e: RoutineExercise, p: RoutineExercisePatch): (r: RoutineExercise)
    ensures r.id == (if p.id.Some? then p.id.value else e.id)
    ensures r.exerciseId == (if p.exerciseId.Some? then p.exerciseId.value else e.exerciseId)
    ensures r.sets == (if p.sets.Some? then p.sets.value else e.sets)
    ensures r.reps == (if p.reps.Some? then p.reps.value else e.reps)
    ensures r.restSeconds == (if p.restSeconds.Some? then p.restSeconds.value else e.restSeconds)
    ensures r.targetWeight == (if p.targetWeight.Some? then p.targetWeight else e.targetWeight)
    ensures p == RoutineExercisePatch(None, None, None, None, None, None) ==> r == e
  {
    RoutineExercise(
      if p.id.Some? then p.id.value else e.id,
      if p.exerciseId.Some? then p.exerciseId.value else e.exerciseId,
      if p.sets.Some? then p.sets.value else e.sets,
      if p.reps.Some? then p.reps.value else e.reps,
      if p.restSeconds.Some? then p.restSeconds.value else e.restSeconds,
      if p.targetWeight.Some? then p.targetWeight else e.targetWeight)
  }

  /** {...e, ...updates}: the patch cannot reach the id or the custom flag, and an empty patch changes nothing. */
  function ApplyExercisePatch(e: Exercise, p: ExercisePatch): (r: Exercise)
    ensures r.id == e.id && r.isCustom == e.isCustom
    ensures r.name == (if p.name.Some? then p.name.value else e.name)
    ensures r.muscleGroup == (if p.muscleGroup.Some? then p.muscleGroup.value else e.muscleGroup)
    ensures r.secondaryMuscles == (if p.secondaryMuscles.Some? then p.secondaryMuscles else e.secondaryMuscles)
    ensures r.equipment == (if p.equipment.Some? then p.equipment.value else e.equipment)
    ensures r.instructions == (if p.instructions.Some? then p.instructions else e.instructions)
    ensures p == ExercisePatch(None, None, None, None, None) ==> r == e
  {
    e.(name := if p.name.Some? then p.name.value else e.name,
       muscleGroup := if p.muscleGroup.Some? then p.muscleGroup.value else e.muscleGroup,
       secondaryMuscles := if p.secondaryMuscles.Some? then p.secondaryMuscles else e.secondaryMuscles,
       equipment := if p.equipment.Some? then p.equipment.value else e.equipment,
       instructions := if p.instructions.Some? then p.instructions else e.instructions)
  }

  /** The entries of a routine that prescribe the exercise. */
  function EntriesFor(entries: seq<RoutineExercise>, exerciseId: Id): seq<RoutineExercise>
  {
    Seqs.Filter(entries, (e: RoutineExercise) => e.exerciseId == exerciseId)
  }

  /** routines.some(r => r.exercises.some(...)): exactly when some routine has an entry for the exercise. */
  function IsReferenced(routines: seq<Routine>, exerciseId: Id): (b: bool)
    ensures b <==> exists i :: 0 <= i < |routines| && EntriesFor(routines[i].exercises, exerciseId) != []
  {
    NestedSomeIsEntries(routines, exerciseId);
    exists i, j :: 0 <= i < |routines| && 0 <= j < |routines[i].exercises| && routines[i].exercises[j].exerciseId == exerciseId
  }

  lemma NestedSomeIsEntries(routines: seq<Routine>, exerciseId: Id)
    ensures (exists i, j :: 0 <= i < |routines| && 0 <= j < |routines[i].exercises| && routines[i].exercises[j].exerciseId == exerciseId) <==>
      (exists i :: 0 <= i < |routines| && EntriesFor(routines[i].exercises, exerciseId) != [])
  {
    if exists i, j :: 0 <= i < |routines| && 0 <= j < |routines[i].exercises| && routines[i].exercises[j].exerciseId == exerciseId {
      var i, j :| 0 <= i < |routines| && 0 <= j < |routines[i].exercises| && routines[i].exercises[j].exerciseId == exerciseId;
      assert routines[i].exercises[j] in EntriesFor(routines[i].exercises, exerciseId);
    }
    if exists i :: 0 <= i < |routines| && EntriesFor(routines[i].exercises, exerciseId) != [] {
      var i :| 0 <= i < |routines| && EntriesFor(routines[i].exercises, exerciseId) != [];
      var first := EntriesFor(routines[i].exercises, exerciseId)[0];
      assert first in routines[i].exercises && first.exerciseId == exerciseId;
      var j :| 0 <= j < |routines[i].exercises| && routines[i].exercises[j] == first;
    }
  }

  /** The first catalog entry with the given id (Array.prototype.find). */
  function FindExercise(exercises: seq<Exercise>, id: Id): (r: Option<Exercise>)
    ensures r.None? <==> forall k :: 0 <= k < |exercises| ==> exercises[k].id != id
    ensures r.Some? ==>
      exists k :: 0 <= k < |exercises| && exercises[k] == r.value && r.value.id == id &&
        forall j :: 0 <= j < k ==> exercises[j].id != id
  {
    if exercises == [] then None
    else if exercises[0].id == id then Some(exercises[0])
    else
      var r := FindExercise(exercises[1..], id);
      assert forall k :: 1 <= k < |exercises| ==> exercises[k] == exercises[1..][k - 1];
      r
  }

  /** The catalog entry a deletion or an edit may touch: present and custom. */
  predicate IsEditable(exercises: seq<Exercise>, id: Id)
  {
    var found := FindExercise(exercises, id);
    found.Some? && found.value.isCustom
  }

  class RoutineStore {
    var routines: seq<Routine>
    var exercises: seq<Exercise>
    /** The built-in catalog a reset restores. */
    const defaultExercises: seq<Exercise>

    constructor(defaultExercises: seq<Exercise>)
      ensures this.defaultExercises == defaultExercises
      ensures routines == [] && exercises == defaultExercises
    {
      this.defaultExercises := defaultExercises;
      routines := [];
      exercises := defaultExercises;
    }

    /** Appends an empty routine created and updated at `now`, and returns its id. */
    method AddRoutine(name: string, description: Option<string>, freshId: Id, now: int) returns (id: Id)
      modifies this
      ensures id == freshId
      ensures routines == old(routines) + [Routine(freshId, name, description, [], now, now)]
      ensures exercises == old(exercises)
    {
      var routine := Routine(freshId, name, description, [], now, now);
      routines := routines + [routine];
      id := freshId;
    }

    /** Merges `updates` into every routine with the id and stamps it; other routines stay as they were. */
    method UpdateRoutine(id: Id, updates: RoutinePatch, now: int)
      modifies this
      ensures exercises == old(exercises)
      ensures |routines| == |old(routines)|
      ensures forall k :: 0 <= k < |routines| ==>
        routines[k] == if old(routines)[k].id == id then ApplyRoutinePatch(old(routines)[k], updates).(updatedAt := now)
                       else old(routines)[k]
      ensures (forall k :: 0 <= k < |old(routines)| ==> old(routines)[k].id != id) ==> routines == old(routines)
    {
      var rs := routines;
      routines := seq(|rs|, k requires 0 <= k < |rs| =>
        if rs[k].id == id then ApplyRoutinePatch(rs[k], updates).(updatedAt := now) else rs[k]);
    }

    /** Removes the routines with the id, keeping the rest in order; the catalog is untouched. */
    method DeleteRoutine(id: Id)
      modifies this
      ensures exercises == old(exercises)
      ensures routines == Seqs.Filter(old(routines), (r: Routine) => r.id != id)
      ensures forall k :: 0 <= k < |routines| ==> routines[k].id != id
      ensures forall k :: 0 <= k < |old(routines)| && old(routines)[k].id != id ==> old(routines)[k] in routines
    {
      routines := Seqs.Filter(routines, (r: Routine) => r.id != id);
    }

    /** Appends the prescription, under a fresh id, to the routine with the id; the catalog is not consulted. */
    method AddExerciseToRoutine(routineId: Id, exercise: RoutineExerciseDraft, freshId: Id, now: int)
      modifies this
      ensures exercises == old(exercises)
      ensures |routines| == |old(routines)|
      ensures forall k :: 0 <= k < |routines| ==>
        routines[k] == if old(routines)[k].id == routineId
          then old(routines)[k].(
            exercises := old(routines)[k].exercises + [RoutineExercise(freshId, exercise.exerciseId, exercise.sets,
                           exercise.reps, exercise.restSeconds, exercise.targetWeight)],
            updatedAt := now)
          else old(routines)[k]
    {
      var entry := RoutineExercise(freshId, exercise.exerciseId, exercise.sets, exercise.reps, exercise.restSeconds, exercise.targetWeight);
      var rs := routines;
      routines := seq(|rs|, k requires 0 <= k < |rs| =>
        if rs[k].id == routineId
        then rs[k].(exercises := rs[k].exercises + [entry], updatedAt := now)
        else rs[k]);
    }

    /** Merges `updates` into the entries with id `entryId` of the matching routine, which is stamped even if no entry matched. */
    method UpdateRoutineExercise(routineId: Id, entryId: Id, updates: RoutineExercisePatch, now: int)
      modifies this
      ensures exercises == old(exercises)
      ensures |routines| == |old(routines)|
      ensures forall k :: 0 <= k < |routines| && old(routines)[k].id != routineId ==> routines[k] == old(routines)[k]
      ensures forall k :: 0 <= k < |routines| && old(routines)[k].id == routineId ==>
        var before, after := old(routines)[k], routines[k];
        && after == before.(exercises := after.exercises, updatedAt := now)
        && |after.exercises| == |before.exercises|
        && forall j :: 0 <= j < |before.exercises| ==>
             after.exercises[j] == if before.exercises[j].id == entryId
               then ApplyRoutineExercisePatch(before.exercises[j], updates) else before.exercises[j]
    {
      var rs := routines;
      routines := seq(|rs|, k requires 0 <= k < |rs| =>
        if rs[k].id == routineId
        then rs[k].(
          exercises := seq(|rs[k].exercises|, j requires 0 <= j < |rs[k].exercises| =>
            if rs[k].exercises[j].id == entryId
            then ApplyRoutineExercisePatch(rs[k].exercises[j], updates)
            else rs[k].exercises[j]),
          updatedAt := now)
        else rs[k]);
    }

    /** Drops the entries with id `entryId` from the matching routine, keeping the others in order, and stamps it. */
    method RemoveExerciseFromRoutine(routineId: Id, entryId: Id, now: int)
      modifies this
      ensures exercises == old(exercises)
      ensures |routines| == |old(routines)|
      ensures forall k :: 0 <= k < |routines| ==>
        routines[k] == if old(routines)[k].id == routineId
          then old(routines)[k].(
            exercises := Seqs.Filter(old(routines)[k].exercises, (e: RoutineExercise) => e.id != entryId),
            updatedAt := now)
          else old(routines)[k]
    {
      var rs := routines;
      routines := seq(|rs|, k requires 0 <= k < |rs| =>
        if rs[k].id == routineId
        then rs[k].(
          exercises := Seqs.Filter(rs[k].exercises, (e: RoutineExercise) => e.id != entryId),
          updatedAt := now)
        else rs[k]);
    }

    /** Replaces the matching routine's whole exercise list and stamps it. */
    method ReorderExercises(routineId: Id, newOrder: seq<RoutineExercise>, now: int)
      modifies this
      ensures exercises == old(exercises)
      ensures |routines| == |old(routines)|
      ensures forall k :: 0 <= k < |routines| ==>
        routines[k] == if old(routines)[k].id == routineId
          then old(routines)[k].(exercises := newOrder, updatedAt := now)
          else old(routines)[k]
      ensures (forall k :: 0 <= k < |old(routines)| ==> old(routines)[k].id != routineId) ==> routines == old(routines)
    {
      var rs := routines;
      routines := seq(|rs|, k requires 0 <= k < |rs| =>
        if rs[k].id == routineId then rs[k].(exercises := newOrder, updatedAt := now) else rs[k]);
    }

    /** Appends a custom exercise under a fresh id and returns that id. */
    method AddCustomExercise(exercise: ExerciseDraft, freshId: Id) returns (id: Id)
      modifies this
      ensures id == freshId
      ensures routines == old(routines)
      ensures exercises == old(exercises) + [Exercise(freshId, exercise.name, exercise.muscleGroup,
        exercise.secondaryMuscles, exercise.equipment, exercise.instructions, true)]
    {
      var newExercise := Exercise(freshId, exercise.name, exercise.muscleGroup, exercise.secondaryMuscles,
        exercise.equipment, exercise.instructions, true);
      exercises := exercises + [newExercise];
      id := freshId;
    }

    /** Merges `updates` into the exercise with the id when the first such entry is custom; a no-op otherwise. */
    method UpdateExercise(id: Id, updates: ExercisePatch)
      modifies this
      ensures routines == old(routines)
      ensures !IsEditable(old(exercises), id) ==> exercises == old(exercises)
      ensures IsEditable(old(exercises), id) ==>
        && |exercises| == |old(exercises)|
        && forall k :: 0 <= k < |exercises| ==>
             exercises[k] == if old(exercises)[k].id == id then ApplyExercisePatch(old(exercises)[k], updates)
                             else old(exercises)[k]
      ensures forall k :: 0 <= k < |exercises| ==> exercises[k].id == old(exercises)[k].id && exercises[k].isCustom == old(exercises)[k].isCustom
    {
      var exercise := FindExercise(exercises, id);
      if exercise.None? || !exercise.value.isCustom {
        return;
      }
      var es := exercises;
      exercises := seq(|es|, k requires 0 <= k < |es| =>
        if es[k].id == id then ApplyExercisePatch(es[k], updates) else es[k]);
    }

    /** Deletes a custom exercise no routine refers to; otherwise refuses and changes nothing. */
    method DeleteExercise(id: Id) returns (deleted: bool)
      modifies this
      ensures routines == old(routines)
      ensures deleted <==> IsEditable(old(exercises), id) && !IsReferenced(old(routines), id)
      ensures deleted ==> exercises == Seqs.Filter(old(exercises), (e: Exercise) => e.id != id)
      ensures deleted ==> forall k :: 0 <= k < |exercises| ==> exercises[k].id != id
      ensures !deleted ==> exercises == old(exercises)
      ensures IsReferenced(old(routines), id) ==> !deleted && exercises == old(exercises)
    {
      var exercise := FindExercise(exercises, id);
      if exercise.None? || !exercise.value.isCustom {
        return false;
      }
      var isUsed := exists i, j ::
        0 <= i < |routines| && 0 <= j < |routines[i].exercises| && routines[i].exercises[j].exerciseId == id;
      if isUsed {
        return false;
      }
      exercises := Seqs.Filter(exercises, (e: Exercise) => e.id != id);
      deleted := true;
    }

    /** Empties the routines and restores the built-in catalog (the in-memory half of a reset). */
    method ResetRoutines()
      modifies this
      ensures routines == [] && exercises == defaultExercises
    {
      routines := [];
      exercises := defaultExercises;
    }
  }

  /** A built-in exercise cannot be deleted; a custom one only once no routine refers to it any more. */
  method CatalogDeletionScenario(builtIn: Exercise, draft: ExerciseDraft, customId: Id, routineId: Id, entryId: Id, now: int)
    returns (builtInDeleted: bool, referencedDeleted: bool, unreferencedDeleted: bool)
    requires !builtIn.isCustom && builtIn.id != customId
    ensures !builtInDeleted && !referencedDeleted && unreferencedDeleted
  {
    var store := new RoutineStore([builtIn]);
    builtInDeleted := store.DeleteExercise(builtIn.id);
    var id := store.AddCustomExercise(draft, customId);
    assert FindExercise(store.exercises, id).Some? && FindExercise(store.exercises, id).value.isCustom;
    var rid := store.AddRoutine("Push day", None, routineId, now);
    store.AddExerciseToRoutine(rid, RoutineExerciseDraft(id, 3, 10, 90, None), entryId, now);
    assert store.routines[0].exercises[0].exerciseId == id;
    referencedDeleted := store.DeleteExercise(id);
    store.RemoveExerciseFromRoutine(rid, entryId, now);
    assert store.routines[0].exercises == [];
    unreferencedDeleted := store.DeleteExercise(id);
  }
}
