// The records of the gym tracker: the exercise catalog, routines, the sets of
// a training session, archived workouts, weight suggestions and the user
// profile. Timestamps are integers (milliseconds); weights, heights and RPE
// values are exact reals; repetition and set counts are integers.
module Types {

  datatype Option<T> = None | Some(value: T)

  datatype Goal = Strength | Hypertrophy | Endurance

  datatype MuscleGroup =
    | Chest | Back | Shoulders | Biceps | Triceps | Forearms
    | Quadriceps | Hamstrings | Glutes | Calves | Abs | Obliques

  datatype Equipment =
    | Barbell | Dumbbell | Cable | Machine | Bodyweight | Kettlebell | Bands | Other

  type Id = string

  datatype WeightEntry = WeightEntry(date: int, weight: real)

  datatype User = User(
    id: Id,
    name: string,
    weight: real,
    height: real,
    birthDate: Option<string>,
    goal: Goal,
    createdAt: int,
    weightHistory: seq<WeightEntry>)

  datatype Exercise = Exercise(
    id: Id,
    name: string,
    muscleGroup: MuscleGroup,
    secondaryMuscles: Option<seq<MuscleGroup>>,
    equipment: Equipment,
    instructions: Option<string>,
    isCustom: bool)

  /** A prescription inside a routine; `exerciseId` points into the catalog. */
  datatype RoutineExercise = RoutineExercise(
    id: Id,
    exerciseId: Id,
    sets: int,
    reps: int,
    restSeconds: int,
    targetWeight: Option<real>)

  datatype Routine = Routine(
    id: Id,
    name: string,
    description: Option<string>,
    exercises: seq<RoutineExercise>,
    createdAt: int,
    updatedAt: int)

  datatype WorkoutSet = WorkoutSet(reps: int, weight: real, rpe: Option<real>, completed: bool)

  datatype WorkoutExercise = WorkoutExercise(exerciseId: Id, sets: seq<WorkoutSet>)

  /** An archived session; `duration` is in whole minutes. */
  datatype Workout = Workout(
    id: Id,
    routineId: Id,
    routineName: string,
    date: int,
    duration: int,
    exercises: seq<WorkoutExercise>,
    notes: Option<string>)

  datatype SuggestionType = Increase | Maintain | Decrease | Deload

  /** The rationale attached to each rule of the advisor (the app shows a fixed text per tag). */
  datatype Reason = NoHistory | DeloadWeek | SteadyLowEffort | HighEffort | UnfinishedSets | Hold

  datatype WeightSuggestion = WeightSuggestion(
    kind: SuggestionType,
    amount: Option<real>,
    suggestedWeight: real,
    reason: Reason)
}
