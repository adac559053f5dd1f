# Gym tracker core, modelled in Dafny

This project models the logic at the heart of a mobile gym tracker:

- **Workout store** (`workouts.dfy`, class `Workouts.WorkoutStore`). It holds the archive of finished workouts and at most one live session. The session can be started from a routine, its sets can be edited, added and removed, and the exercise cursor can be moved. Finishing the session archives it with a duration in whole minutes; cancelling discards it. The module also has the queries over the archive: workouts by exercise, the latest entry for an exercise, and the personal record.
- **Progression engine** (`progression.dfy`, module `Progression`). It computes the Epley one-rep maximum, the volume of completed sets, and the weight increment for compound and isolation muscle groups. It finds the average RPE (rate of perceived exertion) and the last completed weight, computes the weeks-without-deload count (0 once any consecutive pair of sessions shows a 10% drop, otherwise the age in weeks of the oldest session), and makes the weight suggestion (deload, increase, or hold) with its reason. It also gives a duration estimate and the training streak.
- **Routine store** (`routines.dfy`, class `Routines.RoutineStore`). It holds the routines and their exercise entries, plus the exercise catalogue. The catalogue is the built-in exercises plus custom ones. Built-in exercises cannot be edited or deleted, and an exercise still used by a routine cannot be deleted.
- **User store** (`users.dfy`, class `Users.UserStore`). It holds the optional profile and its body-weight history, and the onboarding flag.

`types.dfy` holds the shared records (users, exercises, routines, sets, workouts, suggestions). `jsmath.dfy` holds `Math.round` on exact reals. `seqs.dfy` holds `Array.prototype.filter` on sequences.

Conventions:

- Stores whose fields the application replaces are classes. Each field is a Dafny field and each action is a method with `modifies this`, which states the whole new state in terms of `old`.
- Pure computations are functions with named results. The three loops of the source (`weeksSinceDeload`, `getStreak`, `getPersonalRecord`) are methods with loop invariants. Each is proved equal to a specification function, and the properties are proved about that function.
- The session invariant of the workout store says every exercise keeps at least one set and the cursor stays inside the session. It is the ghost predicate `Valid`. Every action ensures `old(Valid()) ==> Valid()`, and starting, finishing and cancelling establish it outright.
- Clock readings (`now`, `today`) and fresh identifiers are parameters. Timestamps are integers in milliseconds. The streak works on day numbers, that is dates already truncated to local midnight.
- Weights and RPE values are exact reals. Repetitions, sets and seconds are integers.
- `Partial<T>` merges (`{...x, ...updates}`) are patch records whose fields are `Option`s. A present field overrides and an absent one keeps the old value.
- The suggestion's human-readable reason text is a `Reason` tag, one per branch of the rules.

Where the code's behaviour may surprise a reader, the model follows the code:

- `startWorkout` replaces an open session without any guard (stores/workoutStore.ts:39-54).
- `updateSet` checks neither index. A `setIndex` outside the exercise changes nothing. An `exerciseIndex` outside the session makes the JavaScript fail, which the model turns into a precondition (stores/workoutStore.ts:56-74). `addSet` and `removeSet` dereference the exercise in the same way and carry the same precondition (stores/workoutStore.ts:81 and 107).
- `weeksSinceDeload` reports 0 weeks as soon as any consecutive pair of sessions shows a 10% drop, wherever that pair is. Otherwise it reports the age in weeks of the oldest session. It does not measure the time since the most recent drop (services/progressionEngine.ts:48-68).
- `suggestWeight` never consults its `targetReps` argument, and it never produces the `decrease` kind, even though the type allows it (services/progressionEngine.ts:70-130).

## Model

| member | source | states |
|---|---|---|
| JsMath.Round | services/progressionEngine.ts:14 | Math.round: the result is the unique integer in the window (x - 1/2, x + 1/2] |
| JsMath.RoundUnique | services/progressionEngine.ts:14 | any integer in that window is the rounded value, so Round is determined by it |
| Seqs.Filter | stores/routineStore.ts:56-60 | filter keeps exactly the elements satisfying the predicate: every kept element comes from the input and every satisfying input element is kept |
| Seqs.FilterAppend | stores/routineStore.ts:56-60 | filtering distributes over concatenation, so the survivors stay in order |
| Seqs.FilterKeepsAll | stores/userStore.ts:60-69 | when every element satisfies the predicate, filter returns the sequence unchanged |
| Progression.Calculate1RM | services/progressionEngine.ts:12-15 | one repetition gives the weight itself; otherwise the result is a whole number within 1/2 of the Epley estimate weight * (1 + reps/30) |
| Progression.Calculate1RMExamples | services/progressionEngine.ts:12-15 | 100 kg for 1 rep gives 100; 100 kg for 10 reps gives 133 |
| Progression.CalculateVolume | services/progressionEngine.ts:17-21 | the weight-times-reps sum over the completed sets only; 0 when no set is completed |
| Progression.TonnageAppend | services/progressionEngine.ts:17-21 | the weight-times-reps sum is additive over concatenated set lists |
| Progression.VolumeAppend | services/progressionEngine.ts:17-21 | the volume of two set lists together is the sum of their volumes |
| Progression.VolumeIgnoresIncompleteSet | services/progressionEngine.ts:17-21 | adding a set that is not completed leaves the volume unchanged |
| Progression.VolumeNonNegative | services/progressionEngine.ts:17-21 | with non-negative weights and reps the volume is never negative |
| Progression.TonnageNonNegative | services/progressionEngine.ts:20 | the weight-times-reps sum of non-negative sets is never negative |
| Progression.VolumeExample | services/progressionEngine.ts:17-21 | a completed 100 kg x 5 set next to an open set gives volume 500 |
| Progression.WeightIncrement | services/progressionEngine.ts:3-5 | the increment is 2.5 if and only if the primary muscle group is chest, back, quadriceps or glutes, and 1.25 otherwise (lines 23-27) |
| Progression.AverageRPE | services/progressionEngine.ts:29-34 | with no rated completed set the average is 7; otherwise the average times the number of rated completed sets is their RPE sum |
| Progression.AllSetsMember | services/progressionEngine.ts:29-34 | every flattened set comes from some set of some session of the history |
| Progression.RpeSumBounds | services/progressionEngine.ts:29-34 | when every rated set's RPE lies in [lo, hi], the RPE sum lies between count * lo and count * hi |
| Progression.AverageRPEOnScale | services/progressionEngine.ts:29-34 | when every recorded RPE is on the 0..10 scale, the average is on it too |
| Progression.MeanWithinBounds | services/progressionEngine.ts:29-34 | a sum of n values in [lo, hi], divided by n, lies in [lo, hi] |
| Progression.AllSetsCompleted | services/progressionEngine.ts:36-38 | the nested every over sessions and sets holds if and only if every set of the flattened history is completed |
| Progression.NestedEveryIsFlatEvery | services/progressionEngine.ts:36-38 | every set of every session is completed if and only if every flattened set is |
| Progression.AllSetsContains | services/progressionEngine.ts:30 | every set of every session appears in the flattened history |
| Progression.MaxCompletedWeight | services/progressionEngine.ts:40-46 | None if and only if no set is completed; otherwise it is the weight of a completed set and no completed set is heavier |
| Progression.LastWeight | services/progressionEngine.ts:40-46 | 0 for an empty history or a newest session without completed sets; otherwise the heaviest completed weight of the newest session |
| Progression.WeeksBetween | services/progressionEngine.ts:61-64 | the whole weeks of an absolute day difference, never negative |
| Progression.WeeksWithoutDeload | services/progressionEngine.ts:48-68 | the reference rule for the loop: never negative; 0 with fewer than two sessions or after any 10% drop; positive only without a drop and with the oldest session at least a week away from now |
| Progression.WeeksSinceDeload | services/progressionEngine.ts:48-68 | the loop returns WeeksWithoutDeload: 0 with fewer than two sessions or when some consecutive pair drops by more than 10%, otherwise the whole weeks since the oldest session |
| Progression.Recent | services/progressionEngine.ts:85 | the first min(3, n) sessions of the history |
| Progression.SuggestWeight | services/progressionEngine.ts:70-130 | no history gives maintain 0; deload if and only if the weeks count is at least 5 (amount -10); increase if and only if no deload is due, at least two recent sessions, all recent sets completed and average RPE below 8, by exactly the increment and tagged steady low effort; otherwise maintain the last weight, tagged high effort when the recent average RPE exceeds 9, else unfinished sets when some recent set is open, else hold (checked in that order); never decrease |
| Progression.DeloadRoundsToIncrement | services/progressionEngine.ts:89-97 | a deload suggests a whole multiple of the increment in the half-open window (0.9 * last - inc/2, 0.9 * last + inc/2], so on an exact half step the upper multiple, as Math.round picks |
| Progression.DeloadAfterFiveSteadyWeeks | services/progressionEngine.ts:48-97 | with no 10% drop between sessions and the oldest session at least 35 days old, the suggestion is a deload |
| Progression.NoDeloadAfterDrop | services/progressionEngine.ts:48-68 | a 10% drop anywhere in the history makes the weeks count 0, so no deload is suggested |
| Progression.EstimateWorkoutDuration | services/progressionEngine.ts:132-138 | the rounded minutes of 3.5 per set plus 1 per exercise, as the exact integer (7*e*s + 2*e + 1) / 2 |
| Progression.EstimateWorkoutDurationMonotone | services/progressionEngine.ts:132-138 | more exercises or more sets per exercise never shorten the estimate |
| Progression.Insert | services/progressionEngine.ts:144-146 | inserting into a descending sequence keeps it descending and adds exactly one element |
| Progression.SortDescending | services/progressionEngine.ts:144-146 | the sorted days are descending and a permutation of the input |
| Progression.SortDescendingKeepsSorted | services/progressionEngine.ts:144-146 | sorting an already descending sequence returns it unchanged |
| Progression.GapRun | services/progressionEngine.ts:159-175 | the run of newest-first gaps of at most two days is shorter than the list, or 0 |
| Progression.GapRunStopsAtFirstWideGap | services/progressionEngine.ts:161-175 | the run ends exactly at the first gap wider than two days, every earlier gap being at most two days |
| Progression.Streak | services/progressionEngine.ts:141-177 | the reference rule for the loop: between 0 and the number of workout dates (one per workout; workouts on the same day each count), and 0 exactly when there are none or the newest is more than two days before today |
| Progression.GetStreak | services/progressionEngine.ts:140-178 | the loop returns Streak of the days sorted newest first: 0 with no workout or when the newest is more than two days before today, else 1 plus the run of gaps of at most two days |
| Progression.StreakBounds | services/progressionEngine.ts:140-178 | the streak is between 0 and the number of workout dates (one per workout; workouts on the same day each count), and 0 exactly when there are none or the newest is more than two days before today |
| Progression.StreakExampleLive | services/progressionEngine.ts:140-178 | days 10, 9 and 7 seen on day 10 give a streak of 3 (gaps of one and two days both count) |
| Progression.StreakExampleLapsed | services/progressionEngine.ts:140-178 | a single workout 29 days before today gives a streak of 0 |
| Workouts.WorkoutStore.constructor | stores/workoutStore.ts:36-37 | an empty archive and no session |
| Workouts.WorkoutStore.StartWorkout | stores/workoutStore.ts:39-54 | opens a session at the routine's first exercise with one blank set per exercise id, replacing any open one; the archive is untouched |
| Workouts.ApplySetPatch | stores/workoutStore.ts:64 | a field the patch carries replaces the set's own and absent fields are kept; an empty patch changes nothing |
| Workouts.WorkoutStore.UpdateSet | stores/workoutStore.ts:56-74 | merges the patch into the addressed set only; other sets and exercises are unchanged and a set index outside the exercise changes nothing |
| Workouts.WorkoutStore.AddSet | stores/workoutStore.ts:76-100 | appends one open, unrated set copying the last set's reps and weight, or 0 and 0 when the exercise has no sets |
| Workouts.WorkoutStore.RemoveSet | stores/workoutStore.ts:102-120 | removes the addressed set unless it is the exercise's only one; the exercise keeps at least one set |
| Workouts.WorkoutStore.NextExercise | stores/workoutStore.ts:122-133 | advances the cursor by one unless it is on the last exercise |
| Workouts.WorkoutStore.PreviousExercise | stores/workoutStore.ts:135-146 | moves the cursor back by one unless it is on the first exercise |
| Workouts.WorkoutStore.GoToExercise | stores/workoutStore.ts:148-159 | moves the cursor to any index inside the session and ignores other indices |
| Workouts.WorkoutStore.FinishWorkout | stores/workoutStore.ts:161-186 | with a session open, appends exactly one workout (new id, dated at the session start, same exercises, the notes, and the elapsed time rounded to whole minutes) and closes the session; with none, changes nothing |
| Workouts.WorkoutStore.CancelWorkout | stores/workoutStore.ts:188-190 | closes the session and archives nothing |
| Workouts.WorkoutStore.ResetWorkout | stores/workoutStore.ts:226-228 | empties the archive and closes the session |
| Workouts.WorkoutStore.GetPersonalRecord | stores/workoutStore.ts:208-225 | the nested loop scans, in each workout, only the first entry for the exercise (the find) and returns the first heaviest completed set met, with its workout's date; None if and only if no such entry has a completed set; no completed set of those entries is heavier |
| Workouts.HasExerciseIffFound | stores/workoutStore.ts:194 | a workout includes the exercise (the some) exactly when the find of its entry succeeds |
| Workouts.WorkoutsByExercise | stores/workoutStore.ts:192-196 | exactly the archived workouts that include the exercise |
| Workouts.WorkoutsByExerciseAppend | stores/workoutStore.ts:192-196 | archiving one more workout extends the answer by that workout exactly when it includes the exercise |
| Workouts.FirstExercise | stores/workoutStore.ts:205 | the find of the first entry with the exercise id (also used at line 213), None if and only if there is none |
| Workouts.LatestWorkoutWith | stores/workoutStore.ts:198-206 | the head of the workouts including the exercise after a stable newest-first sort: no such workout is newer, and earlier archived ones are strictly older |
| Workouts.GetLastWorkoutForExercise | stores/workoutStore.ts:198-206 | None if and only if no workout includes the exercise; otherwise the exercise's entry in a workout no other including workout is newer than |
| Workouts.CandidatesStep | stores/workoutStore.ts:212-214 | the outer loop meets one workout's candidates after all earlier workouts' candidates |
| Workouts.RecordScanStep | stores/workoutStore.ts:216-220 | a completed set replaces the record exactly when there is none yet or it is strictly heavier; open sets are skipped |
| Workouts.BestRecordIsHeaviest | stores/workoutStore.ts:208-225 | the record search finds a record if and only if a candidate exists; it is the first of the heaviest candidates |
| Workouts.CandidatesNonEmpty | stores/workoutStore.ts:208-225 | a candidate exists only if some workout offers a completed set of the exercise |
| Workouts.RecordIsHeaviestCandidate | stores/workoutStore.ts:208-225 | every completed set of each workout's first entry for the exercise weighs no more than the record; later duplicate entries are not scanned |
| Workouts.CandidatesContain | stores/workoutStore.ts:208-225 | every completed set of each workout's first entry for the exercise is a candidate of the record search |
| Workouts.EndToEndSession | stores/workoutStore.ts:39-186 | a two-exercise session in which removing the only set is refused, whose sets are filled in and completed, archives both completed sets with their weights |
| Workouts.CancelArchivesNothing | stores/workoutStore.ts:188-190 | finishing with no session returns no id; starting and then cancelling a session archives nothing |
| Routines.ApplyExercisePatch | stores/routineStore.ts:133-141 | a field the patch carries (name, muscle group, secondary muscles, equipment, instructions) replaces the exercise's own and absent fields are kept; the id and the custom flag never change; an empty patch changes nothing |
| Routines.ApplyRoutinePatch | stores/routineStore.ts:46-54 | a present name, description or exercise list replaces the routine's own and absent fields are kept; the patch cannot reach the id or the timestamps; an empty patch changes nothing |
| Routines.ApplyRoutineExercisePatch | stores/routineStore.ts:80-94 | every field the patch carries (exercise id, sets, reps, rest, target weight) replaces the entry's own and absent fields are kept; the entry id changes exactly when the patch carries one (the patch is a full Partial<RoutineExercise>); an empty patch changes nothing |
| Routines.IsReferenced | stores/routineStore.ts:146-148 | the nested some holds exactly when some routine has an entry prescribing the exercise |
| Routines.NestedSomeIsEntries | stores/routineStore.ts:146-148 | an entry prescribing the exercise exists in some routine exactly when that routine's filtered entry list is non-empty |
| Routines.FindExercise | stores/routineStore.ts:156-158 | the first catalogue exercise with the id, None if and only if there is none |
| Routines.RoutineStore.constructor | stores/routineStore.ts:28-29 | no routines, and the catalogue is the built-in exercises |
| Routines.RoutineStore.AddRoutine | stores/routineStore.ts:31-44 | appends one empty routine with the new id, created and updated now, and returns that id |
| Routines.RoutineStore.UpdateRoutine | stores/routineStore.ts:46-54 | merges the patch into the routines with the id and stamps them updated now; an unknown id changes nothing |
| Routines.RoutineStore.DeleteRoutine | stores/routineStore.ts:56-60 | removes exactly the routines with the id, keeping the others in order |
| Routines.RoutineStore.AddExerciseToRoutine | stores/routineStore.ts:62-78 | appends one entry with the new id to the routines with the id and stamps them; other routines are unchanged |
| Routines.RoutineStore.UpdateRoutineExercise | stores/routineStore.ts:80-94 | merges the patch into the entries with the entry id in the routines with the id and stamps them; the patch may change the entry id itself, since it may carry an `id` |
| Routines.RoutineStore.RemoveExerciseFromRoutine | stores/routineStore.ts:96-108 | drops the entries with the entry id from the routines with the id and stamps them |
| Routines.RoutineStore.ReorderExercises | stores/routineStore.ts:110-118 | replaces the entry list of the routines with the id by the given order and stamps them; an unknown id changes nothing |
| Routines.RoutineStore.AddCustomExercise | stores/routineStore.ts:120-131 | appends one custom exercise with the new id and returns that id |
| Routines.RoutineStore.UpdateExercise | stores/routineStore.ts:133-141 | merges the patch into a custom exercise with the id; built-in or unknown ids change nothing; no id or custom flag ever changes |
| Routines.RoutineStore.DeleteExercise | stores/routineStore.ts:143-154 | deletes if and only if the exercise is custom and no routine uses it, and then removes exactly that id; a refusal changes nothing |
| Routines.RoutineStore.ResetRoutines | stores/routineStore.ts:159-165 | no routines, and the catalogue back to the built-in exercises |
| Routines.CatalogDeletionScenario | stores/routineStore.ts:120-154 | a built-in exercise is never deleted, a custom one used by a routine is refused, and once unused it is deleted |
| Users.ApplyUserPatch | stores/userStore.ts:38-42 | a field the patch carries (name, weight, height, birth date, goal, weight history) replaces the profile's own and absent fields are kept; the id and the creation time never change; an empty patch changes nothing |
| Users.WithoutDate | stores/userStore.ts:60-69 | no remaining weight entry is dated at the deleted instant |
| Users.AddThenDeleteRestoresHistory | stores/userStore.ts:44-69 | logging a weight at a new instant and then deleting that instant gives back the original history |
| Users.UserStore.constructor | stores/userStore.ts:20-21 | no profile and not onboarded |
| Users.UserStore.CreateUser | stores/userStore.ts:23-36 | the profile is created now with the new id and a one-entry weight history, and onboarding is marked done |
| Users.UserStore.UpdateUser | stores/userStore.ts:38-42 | without a profile nothing changes; otherwise the patch is merged, keeping id and creation time |
| Users.UserStore.AddWeightEntry | stores/userStore.ts:44-58 | appends one entry dated now and sets the current weight to it; without a profile nothing changes |
| Users.UserStore.DeleteWeightEntry | stores/userStore.ts:60-69 | removes the entries dated at the given instant, keeping the others in order and the current weight |
| Users.UserStore.SetOnboarded | stores/userStore.ts:71 | only the onboarding flag changes |

## Left out

- Persistence is not modelled: the zustand `persist` middleware, AsyncStorage and JSON (de)serialisation. Each store is modelled as its in-memory state.
- `Crypto.randomUUID()` and `new Date()` become the parameters `freshId` and `now`/`today`. Their uniqueness and monotonicity are not modelled.
- ISO date strings are integer timestamps. `deleteWeightEntry` compares date strings (stores/userStore.ts:66); this agrees with comparing instants because every stored date is the canonical `toISOString()` output (stores/userStore.ts:24 and 48), and a date string in another format would match nothing in the source.
- getStreak's `setHours(0, 0, 0, 0)`, the local-timezone truncation, is not modelled. The streak takes day numbers already truncated, and its day-difference rounding is exact on them.
- Repetitions are whole numbers in the model. The set editor stores `parseFloat(value) || 0` into `reps`, so fractional repetitions can reach `calculateVolume` and `calculate1RM` in the app; the model does not cover them.
- IEEE floating point is not modelled: weights, RPE and durations are exact reals or integers. `Math.round` is exact on reals, and `Math.floor` on weeks is exact division.
- The built-in exercise catalogue (`defaultExercises`) is a constructor parameter of `RoutineStore`. Its contents are data, not logic.
- Progression.SuggestWeight: the Spanish reason texts are replaced by one `Reason` tag per branch. The contract states which branch fires and which tag it carries, not the wording of the message.
- Patches with an explicit `undefined` value are not modelled. In JavaScript, `{...x, rpe: undefined}` erases a field; the patch records can only keep or override a field.
- Workouts.LatestWorkoutWith: the copying `sort` by date is not executed. The model states the head of a stable newest-first sort directly, that is the first archived among the latest.
- The rest-timer UI state and all screens under `app/` are not part of this model. They call the stores but hold no core logic.

## Findings

None.
