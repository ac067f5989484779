# vext data layer, modelled in Dafny

vext is a workout-tracking app. Its data layer keeps workouts, their exercise
links and logged sets, an exercise catalogue and workout types in SQLite. It
also holds a few client-side stores: settings, the rest timer, and an
optimistic exercise order. This project models that layer and proves what it
promises.

Modelling choices:

- The database is one `class Database` (`store.dfy`) with one `seq` of rows per
  table, the `settings` key/value table as a `map`, and the `user_version`
  counter.
- Every SQL constraint that the schema declares is part of `Database.Valid()`:
  - primary keys;
  - workout-type names are UNIQUE;
  - exercise names are UNIQUE under NOCASE, modelled as ASCII lower-casing;
  - foreign keys;
  - the partial unique index that allows at most one `in_progress` workout.
- An INSERT or UPDATE that would break a constraint fails and leaves its table
  unchanged.
- Each `withTransactionAsync` block is one method whose failure leaves every
  table as it was.
- A statement naming a column that the current schema version lacks fails with
  `NoSuchColumn`.
- Fresh UUIDs, the `datetime('now')` clock, the platform locale and the
  notification scheduler are parameters.
- Stored timestamps are whole seconds, ordered as their stored text is. Date
  bounds a caller passes in stay text. `getCompletedByDateRange` compares them
  with the stored text, which is a `stamp` parameter, under BINARY collation.
- JavaScript `.length` is modelled as the UTF-16 code-unit count (`Text.Utf16Length`).

The modules follow the source layout:

- `workout_sets`, `workout_exercises`, `workouts`, `exercises` and `workout_types` model the table helpers.
- `workout_service` models the service.
- `migrations` and `seed` model the database bootstrap.
- `validation`, `rest_defaults`, `formatting` and `reps_color` model the pure rules.
- `progress` models the streak and the personal-record maxima.
- `settings`, `rest_timer` and `exercise_order` model the client stores.
- `json` and `text` model the JavaScript and SQLite primitives the layer relies on.
- `query` models the SQL `WHERE`, `ORDER BY` (a stable sort) and `MAX`.

## Model

| member | source | states |
|---|---|---|
| Store.Database.constructor | src/backend/database/migrations.ts:9-81 | an empty database at version 0 satisfies every declared constraint |
| WorkoutSets.Add | src/backend/models/workoutSet.ts:43-75 | succeeds exactly when the id is fresh and the parent row exists; on success it appends the row NewSet builds, on failure the table is unchanged |
| WorkoutSets.AddNumbering | src/backend/models/workoutSet.ts:56 | the new set number is one above every number under that parent, and it is 1 when the parent has no sets |
| WorkoutSets.AddKeepsDense | src/backend/models/workoutSet.ts:56 | if a parent's numbers are exactly 1..n, adding gives number n+1, so they become exactly 1..n+1 |
| WorkoutSets.AddKeepsAllDense | src/backend/models/workoutSet.ts:56 | numbering stays 1..n under every parent after an add |
| WorkoutSets.AddReturnsInput | src/backend/models/workoutSet.ts:61-74 | the returned set carries the given payload and the insertion time as completedAt |
| WorkoutSets.AddNoInput | src/backend/models/workoutSet.ts:46-67 | with no payload, reps, weight, duration, distance and custom fields are all null |
| WorkoutSets.DecodeFields | src/backend/models/workoutSet.ts:27-29 | null or empty text decodes to null; other text decodes to the value the modelled JSON grammar gives it, and fails exactly when that grammar rejects it (JSON.parse throws); numbers and surrogate escapes are outside the grammar (see Left out) |
| WorkoutSets.MapSet | src/backend/models/workoutSet.ts:18-33 | copies every plain column, and its custom fields are what DecodeFields gives; fails exactly when they do not decode |
| WorkoutSets.DecodeStoredFields | src/backend/models/workoutSet.ts:61-67 | custom fields as stored by add/update decode back to the object that was given |
| WorkoutSets.WithPayload | src/backend/models/workoutSet.ts:83-95 | the target row gets all five payload columns from the input, omitted ones null; id, parent and set number stay; other rows are unchanged |
| WorkoutSets.Update | src/backend/models/workoutSet.ts:77-103 | the table becomes WithPayload; the call succeeds exactly when the id existed, and otherwise throws "not found after update" |
| WorkoutSets.LookupWithPayload | src/backend/models/workoutSet.ts:97-102 | the row read back after update is the old row with the new payload |
| WorkoutSets.SameIdsKeepConstraints | src/backend/models/workoutSet.ts:83-95 | rewriting payload columns keeps the keys, their uniqueness and the foreign keys |
| WorkoutSets.RemoveSet | src/backend/models/workoutSet.ts:105-130 | removing an unknown id changes nothing |
| WorkoutSets.Remove | src/backend/models/workoutSet.ts:105-130 | the table becomes RemoveSet of the old table, and the constraints still hold |
| WorkoutSets.RemoveExact | src/backend/models/workoutSet.ts:119-128 | exactly the target row leaves; the rows left keep their order, identity and payload |
| WorkoutSets.RemoveOthersUntouched | src/backend/models/workoutSet.ts:121-127 | sets of other parents are unchanged by a remove |
| WorkoutSets.RemoveKeepsDense | src/backend/models/workoutSet.ts:121-128 | if the parent's numbers were 1..n, after the remove they are exactly 1..n-1: every later sibling moves down by one |
| WorkoutSets.RemoveKeepsAllDense | src/backend/models/workoutSet.ts:119-128 | numbering stays 1..n under every parent after a remove |
| WorkoutSets.CloseGap | src/backend/models/workoutSet.ts:121-127 | decrementing the numbers above a removed one closes the gap and leaves 1..n-1 |
| WorkoutSets.ByWorkoutExercise | src/backend/models/workoutSet.ts:132-141 | a permutation of the parent's sets, in ascending set number |
| WorkoutSets.ListedInOrder | src/backend/models/workoutSet.ts:132-141 | when numbering is dense, the k-th listed set has number k+1 |
| WorkoutSets.ByWorkout | src/backend/models/workoutSet.ts:143-156 | exactly the workout's sets, each as often as in the table (the same multiset), ordered by the exercise's sort order and then by set number |
| WorkoutSets.LatestSetsSpec | src/backend/models/workoutSet.ts:162-182 | empty exactly when the exercise has no set in a completed workout; otherwise all sets of one workout-exercise row whose workout was completed no earlier than any other candidate, in set-number order |
| WorkoutSets.LatestSetsForExercises | src/backend/models/workoutSet.ts:188-203 | the map holds exactly the requested ids that have sets, each mapped to its LatestSets |
| WorkoutExercises.AddToWorkout | src/backend/models/workoutExercise.ts:48-79 | fails with a missing target_reps_min column before schema version 3; otherwise succeeds exactly when the id is fresh and the workout and exercise exist; it appends NewLink, whose restSeconds is the given value and whose omitted targets are null |
| WorkoutExercises.AddPosition | src/backend/models/workoutExercise.ts:61 | the new sort order is above every sort order in that workout, and it is 0 for the first row |
| WorkoutExercises.AddAfterDense | src/backend/models/workoutExercise.ts:61 | when the workout's rows hold positions 0..n-1 in table order, MAX(sort_order) + 1 is n |
| WorkoutExercises.ByWorkoutRows | src/backend/models/workoutExercise.ts:81-97 | exactly the workout's rows whose exercise exists, each once (the same multiset as the join's filter), in ascending sort order |
| WorkoutExercises.MapFullRows | src/backend/models/workoutExercise.ts:39-46 | each row is joined with its exercise's name and category, with an empty sets list |
| WorkoutExercises.ByWorkout | src/backend/models/workoutExercise.ts:81-97 | the i-th result is the i-th joined row of the workout in sort order, with its exercise's name and category and empty sets |
| WorkoutExercises.RemoveFromWorkout | src/backend/models/workoutExercise.ts:99-113 | deletes the row's sets and then the row; every other row stays and the constraints hold |
| WorkoutExercises.RemoveCascade | src/backend/models/workoutExercise.ts:103-112 | after the cascade no set refers to the removed row, and exactly the other rows remain |
| WorkoutExercises.WithRest | src/backend/models/workoutExercise.ts:115-125 | only rest_seconds of the target row changes |
| WorkoutExercises.UpdateRestSeconds | src/backend/models/workoutExercise.ts:115-125 | the table becomes WithRest, and the constraints hold |
| WorkoutExercises.WithTargets | src/backend/models/workoutExercise.ts:127-139 | min and max targets of the target row are written together; nothing else changes |
| WorkoutExercises.UpdateTargetReps | src/backend/models/workoutExercise.ts:127-139 | before schema version 3 it fails on the missing column and changes nothing; otherwise the table becomes WithTargets |
| WorkoutExercises.Reorder | src/backend/models/workoutExercise.ts:141-156 | the loop of UPDATEs leaves the table equal to Reordered |
| WorkoutExercises.ReorderedAt | src/backend/models/workoutExercise.ts:147-154 | a row of the workout listed in orderedIds gets its last index as sort order; foreign and unlisted rows keep theirs |
| WorkoutExercises.ReorderIdempotent | src/backend/models/workoutExercise.ts:146-155 | repeating a reorder changes nothing |
| WorkoutExercises.FullReorder | src/backend/models/workoutExercise.ts:146-155 | when the list names each row of the workout once, row orderedIds[i] gets sort order i, in 0..n-1 |
| WorkoutExercises.FullReorderDistinct | src/backend/models/workoutExercise.ts:146-155 | after a full reorder the workout's sort orders are pairwise distinct |
| Workouts.Create | src/backend/models/workout.ts:30-47 | succeeds exactly when the id is fresh, the type exists and no workout is in progress (the partial index); it appends an in_progress row with the given type and name and no completedAt |
| Workouts.GetActive | src/backend/models/workout.ts:49-57 | null exactly when no workout is in progress; otherwise an in-progress row |
| Workouts.GetActiveUnique | src/backend/models/workout.ts:49-57 | under the single-active invariant, that row is the in-progress workout |
| Workouts.GetById | src/backend/models/workout.ts:59-68 | null exactly for an unknown id; otherwise the row with that id |
| Workouts.WithChange | src/backend/models/workout.ts:70-101 | only the target row's status and completedAt change, as each transition prescribes |
| Workouts.LeavingProgressKeepsSingleActive | src/backend/models/workout.ts:70-101 | complete and discard keep at most one workout in progress |
| Workouts.ReopenKeepsSingleActive | src/backend/models/workout.ts:81-90 | reopen keeps at most one workout in progress when no other one is |
| Workouts.Complete | src/backend/models/workout.ts:70-79 | sets completed and completedAt, whatever the prior status |
| Workouts.Reopen | src/backend/models/workout.ts:81-90 | sets in_progress and clears completedAt; fails through the partial unique index exactly when another workout is in progress |
| Workouts.Discard | src/backend/models/workout.ts:92-101 | sets discarded and leaves completedAt alone |
| Workouts.Remove | src/backend/models/workout.ts:103-117 | deletes the workout's sets, then its exercise rows, then the workout, in one transaction |
| Workouts.RemoveLeavesNoTrace | src/backend/models/workout.ts:107-116 | no row of the removed workout remains at any level, and every other workout stays |
| Workouts.SingleActiveFilter | src/backend/database/migrations.ts:78-79 | deleting rows keeps at most one workout in progress |
| Workouts.CompletedNewestFirst | src/backend/models/workout.ts:124-130 | exactly the completed workouts, newest started_at first |
| Workouts.GetCompletedPage | src/backend/models/workout.ts:119-131 | the page holds only completed workouts, newest first, at most limit of them; it is empty past the count and non-empty before it when the limit is not 0 |
| Workouts.FirstPageHoldsAll | src/backend/models/workout.ts:119-141 | a first page as long as getCompletedCount holds every completed workout |
| Workouts.CompletedCount | src/backend/models/workout.ts:133-141 | the count is the length of the list getCompleted pages through, and it is 0 exactly when no workout is completed |
| Workouts.GetCompletedByDateRange | src/backend/models/workout.ts:143-157 | exactly the completed workouts whose stored start text lies between the two text bounds under BINARY collation, each as often as in the table, newest first |
| Workouts.DateRangeOfStamps | src/backend/models/workout.ts:143-157 | when the stored text sorts as the times do and the bounds are such texts, the range is the closed range of start times |
| Workouts.PrefixBoundExcludes | src/backend/models/workout.ts:147-148 | an end bound that is a proper prefix of a stored start (a bare date) sorts before it, so that workout is left out |
| WorkoutService.StartWorkout | src/backend/services/workoutService.ts:14-24 | throws and creates nothing while a workout is in progress; otherwise it behaves as create |
| WorkoutService.RestResolution | src/backend/services/workoutService.ts:32-39 | an explicit rest time wins; then the exercise's own; then its category default; an unknown exercise gets 90 |
| WorkoutService.AddExerciseToWorkout | src/backend/services/workoutService.ts:26-40 | adds the exercise with the resolved rest time, with the same outcome as addToWorkout, including NoSuchColumn before schema version 3 |
| WorkoutService.CheckSetInput | src/backend/services/workoutService.ts:55-70 | no error exactly when every present field validates; otherwise the first failing check in the order weight, reps, duration, distance |
| WorkoutService.LogSet | src/backend/services/workoutService.ts:50-72 | an invalid input throws its first error and writes nothing; otherwise the call is add |
| WorkoutService.UpdateSet | src/backend/services/workoutService.ts:74-96 | an invalid input throws before any write; otherwise the call is update and returns the overwritten row |
| WorkoutService.CompleteWorkout | src/backend/services/workoutService.ts:112-121 | throws exactly when the workout has no sets in any of its exercises; otherwise it marks the workout completed, whatever its status |
| WorkoutService.LinkIdsAmong | src/backend/services/workoutService.ts:137-144 | the exercise-row ids of the listed workouts |
| WorkoutService.DeleteWorkouts | src/backend/services/workoutService.ts:137-144 | removes exactly the listed workouts, their exercise rows and their sets; everything else stays |
| WorkoutService.WithSets | src/backend/services/workoutService.ts:165-172 | each exercise gets its sets in set-number order |
| WorkoutService.GetFullWorkout | src/backend/services/workoutService.ts:152-176 | null exactly for an unknown id; fails, with a thrown error, exactly when the workout exists and its type does not |
| WorkoutService.GetFullWorkoutContent | src/backend/services/workoutService.ts:152-176 | a found workout holds its own row and type, its exercise rows in sort order, and under each exactly that row's sets in set-number order |
| WorkoutService.FullWorkoutOnConsistentData | src/backend/services/workoutService.ts:152-176 | on a consistent database a known workout always loads, and its k-th set of each exercise has number k+1 |
| WorkoutService.RepeatName | src/backend/services/workoutService.ts:239-247 | the name starts with the base name and " (#", ends with ")", and the text between is read back by parseInt as one more than the COUNT(*) of completed workouts of that type |
| WorkoutService.FilterCountsCompleted | src/backend/services/workoutService.ts:239-245 | the filtered list the name is built from has as many rows as COUNT(*) counts |
| WorkoutService.NumberedName | src/backend/services/workoutService.ts:246 | the template `${base} (#${n})` keeps the base and " (#" in front and ")" at the end, and the text between reads back as n |
| WorkoutService.RepeatNameNests | src/backend/services/workoutService.ts:246 | repeating "Push Day (#2)" gives a name that starts with "Push Day (#2) (#": the old suffix is kept |
| WorkoutService.AddEmptySets | src/backend/services/workoutService.ts:253-255 | the table keeps its old rows as a prefix; every appended row is an empty set under the parent (null reps, weight, duration, distance and custom fields) numbered on from the parent's next set number; on success count rows are appended; other parents' sets are unchanged |
| WorkoutService.NextAfterAdd | src/backend/models/workoutSet.ts:56 | after add the parent's next set number is one higher |
| WorkoutService.NewRowSets | src/backend/services/workoutService.ts:250-256 | the sets appended under a new row are exactly its sets, empty and numbered 1..n |
| WorkoutService.CopyExercise | src/backend/services/workoutService.ts:250-256 | copying the k-th source exercise extends the copied prefix by one: a row at sort order k with the same exercise and rest time, and as many sets, all empty and numbered 1..n; the existing workout_exercises and workout_sets rows are kept as a prefix; before schema version 3 it fails with NoSuchColumn and writes nothing |
| WorkoutService.RepeatWorkout | src/backend/services/workoutService.ts:232-260 | throws for an unknown source, and like startWorkout while another workout is active, writing nothing in both cases; once the new workout is started it stays even when a later step fails, and before schema version 3 a source with exercises then fails with NoSuchColumn, leaving the new workout without exercise or set rows; existing workout_exercises and workout_sets rows are always kept as a prefix; on success the new in-progress workout is named by RepeatName and its i-th row, at sort order i, copies the source's i-th exercise with the same rest time and as many empty sets numbered 1..n |
| WorkoutService.FreshWorkoutHasNoRows | src/backend/services/workoutService.ts:249 | a newly created workout has no exercise rows |
| Exercises.SafeParseMuscles | src/backend/models/exercise.ts:24-30 | malformed JSON gives the empty list instead of throwing |
| Exercises.SafeParseEncodedMuscles | src/backend/models/exercise.ts:24-30 | muscles as stored by create decode back to the same list |
| Exercises.MapExercise | src/backend/models/exercise.ts:32-45 | copies id, name, category, equipment, instructions, rest time, archive and creation times; parses the muscles safely; isDefault is true exactly when is_default is 1 |
| Exercises.SelectByName | src/backend/models/exercise.ts:47-74 | exactly the rows that the filter keeps, mapped, as many as the filter keeps, in name order |
| Exercises.CatalogueQueries | src/backend/models/exercise.ts:47-74 | getAll lists exactly the non-archived exercises; getByCategory also requires the category; search lists exactly the non-archived exercises containing the query as a case-insensitive substring (both directions) |
| Exercises.SearchIsSubstring | src/backend/models/exercise.ts:69-71 | LIKE '%q%' matches exactly when the lower-cased name contains the lower-cased query |
| Exercises.GetById | src/backend/models/exercise.ts:76-85 | null exactly for an unknown id; archived rows are found |
| Exercises.GetByIds | src/backend/models/exercise.ts:87-98 | the empty list for no ids; otherwise exactly the exercises whose id is listed, one result per matching row however often its id is listed |
| Exercises.Create | src/backend/models/exercise.ts:100-126 | fails when a name equal to an existing one ignoring case exists, or when the id is taken, or when the schema has no rest_seconds yet; on success it appends a row with is_default 0, no archivedAt and the given instructions and rest time, and returns that row mapped: every field of the returned exercise (category, equipment and createdAt included) is stated |
| Exercises.Patched | src/backend/models/exercise.ts:143-163 | exactly the supplied fields change; id, default flag, archivedAt and createdAt stay |
| Exercises.PatchedNothing | src/backend/models/exercise.ts:143-146 | a patch with no fields changes nothing |
| Exercises.Update | src/backend/models/exercise.ts:128-164 | with no fields it returns the row without writing; an unknown id throws; a clash with another name ignoring case fails; otherwise exactly the supplied fields change |
| Exercises.UpdateRestSeconds | src/backend/models/exercise.ts:166-176 | only restSeconds of the target changes; it fails before the column exists |
| Exercises.Archived | src/backend/models/exercise.ts:178-186 | only archivedAt of the target changes |
| Exercises.Archive | src/backend/models/exercise.ts:178-186 | the table becomes Archived, and the constraints hold |
| Exercises.ArchiveHides | src/backend/models/exercise.ts:178-186 | an archived exercise leaves getAll, getByCategory and search, but getById still finds it with its archivedAt |
| WorkoutTypes.SafeParseFields | src/backend/models/workoutType.ts:12-18 | malformed JSON gives the empty list instead of throwing |
| WorkoutTypes.SafeParseEncodedFields | src/backend/models/workoutType.ts:12-18 | stored field definitions decode back to the same list |
| WorkoutTypes.MapType | src/backend/models/workoutType.ts:20-28 | maps each column; isDefault is true exactly when is_default is 1 |
| WorkoutTypes.GetAll | src/backend/models/workoutType.ts:30-37 | every type exactly once, ordered by name |
| WorkoutTypes.GetById | src/backend/models/workoutType.ts:39-48 | null exactly for an unknown id; otherwise that row, mapped |
| WorkoutTypes.GetDefaults | src/backend/models/workoutType.ts:50-57 | exactly the rows with is_default 1, as many as there are such rows, ordered by name |
| Migrations.Outcome | src/backend/database/migrations.ts:97-116 | the version never decreases; it reaches max(current, target) on success; a failure stops at a version below the target, on a missing step or on the failing step, with every earlier step done |
| Migrations.OutcomeSucceeds | src/backend/database/migrations.ts:101-115 | the migration succeeds exactly when every step from the current version up to the target exists and succeeds |
| Migrations.RerunIsNoOp | src/backend/database/migrations.ts:101-104 | running again after the run changes nothing and succeeds |
| Migrations.ResumeAfterFailure | src/backend/database/migrations.ts:111-114 | failed steps keep the committed ones, so a later run continues from where the first stopped |
| Migrations.MigrateTo | src/backend/database/migrations.ts:97-116 | the loop leaves user_version at Outcome's version and fails exactly when Outcome does |
| Migrations.RunMigrations | src/backend/database/migrations.ts:97-116 | the same, with the configured schema version as target |
| Migrations.ConfiguredSchema | src/config/app.ts:4 | from a fresh database the configured run ends at version 2, which has rest_seconds but not the target-reps columns |
| Seed.TypeRows | src/backend/database/seed.ts:43-51 | one row per default workout type, each flagged is_default 1 |
| Seed.ExerciseRows | src/backend/database/seed.ts:54-65 | one row per catalogue entry, flagged is_default 1 and with no rest time |
| Seed.SeedDatabase | src/backend/database/seed.ts:34-67 | does nothing if a default exercise exists; otherwise succeeds exactly when the rows fit the unique constraints, appending the types and then the exercises; a failure rolls back both tables |
| Seed.InsertTypeRows | src/backend/database/seed.ts:43-51 | succeeds exactly when every type row fits the key and name constraints, appending them all; on a collision the table is as before |
| Seed.InsertExerciseRows | src/backend/database/seed.ts:54-65 | succeeds exactly when every exercise row fits the key and NOCASE name constraints, appending them all; on a collision the table is as before |
| Seed.SeedingIsOnce | src/backend/database/seed.ts:36-39 | after a seed with a non-empty catalogue the existence check holds, so a second seed is a no-op |
| Seed.DefaultRowSeeds | src/backend/database/seed.ts:36-39 | any table holding a default exercise counts as seeded |
| Seed.DefaultTypeNamesDistinct | src/backend/database/seed.ts:11-32 | the three default type names are distinct |
| Seed.ExerciseIdsDistinct | src/backend/database/seed.ts:54-65 | seeded exercise ids are distinct when the id source is injective |
| Seed.SeedFitsEmpty | src/backend/database/seed.ts:41-66 | on empty tables the seed fits whenever the catalogue names are distinct ignoring case |
| Seed.SeededTypeFields | src/backend/database/seed.ts:43-51 | a seeded type reads back as a default type with its name and field list |
| Validation.ValidateWeight | src/shared/utils/validation.ts:6-10 | null exactly when 0 <= value <= 9999; the below-range message first |
| Validation.ValidateReps | src/shared/utils/validation.ts:12-17 | null exactly for an integer in 1..9999; a non-integer gets the whole-number message first |
| Validation.ValidateDuration | src/shared/utils/validation.ts:19-24 | null exactly for an integer in 1..359999; a non-integer gets the whole-number message first |
| Validation.ValidateDistance | src/shared/utils/validation.ts:26-30 | null exactly when 0.01 <= meters <= 9999.99 |
| Validation.ValidateExerciseName | src/shared/utils/validation.ts:32-37 | null exactly when the trimmed `.length`, in UTF-16 code units, is within 1..100; a blank name gets the required message |
| Validation.AstralNameTooLong | src/shared/utils/validation.ts:32-37 | 51 characters above U+FFFF are 102 code units, so the name is rejected as too long |
| Text.Utf16Length | src/shared/utils/validation.ts:34-46 | `.length` lies between the number of characters and twice that |
| Text.Utf16LengthBmp | src/shared/utils/validation.ts:34-46 | below U+10000 `.length` is the number of characters |
| Text.Utf16LengthAstral | src/shared/utils/validation.ts:34-46 | above U+FFFF every character counts twice |
| Validation.ExerciseNamePadding | src/shared/utils/validation.ts:32-37 | whitespace before and after a name, of any lengths, never changes the verdict |
| Validation.ValidateWorkoutName | src/shared/utils/validation.ts:39-42 | null exactly when the untrimmed length in UTF-16 code units is at most 200 |
| Validation.ValidateNotes | src/shared/utils/validation.ts:44-47 | null exactly when the length in UTF-16 code units is at most 1000 |
| RestDefaults.DefaultRestSeconds | src/backend/services/timerService.ts:42-53 | 90 for strength, 60 for cardio and flexibility, and the strength default for any other value |
| RestDefaults.DefaultRestRange | src/backend/services/timerService.ts:42-53 | the default is always 60 or 90 |
| RepsColor.RepsColor | src/frontend/components/workout/SetRow.tsx:7-12 | neutral exactly when reps, min or max is null; below exactly when reps < min; above exactly when min <= reps and reps > max; in range otherwise |
| RepsColor.InvertedRange | src/frontend/components/workout/SetRow.tsx:9-10 | with min > max, reps below min is amber, and no value is in range |
| ClockRoundTrip.FormatDurationRoundTrip | src/shared/utils/formatting.ts:10-19 | reading a formatDuration output back gives the seconds it was made from |
| ClockRoundTrip.FormatDurationShape | src/shared/utils/formatting.ts:15-18 | H:MM:SS when there is at least an hour, M:SS otherwise |
| ClockRoundTrip.FormatDurationText | src/shared/utils/formatting.ts:11-18 | hours, minutes within the hour and seconds within the minute, minutes and seconds padded to two digits |
| ClockRoundTrip.ClockFields | src/shared/utils/formatting.ts:11-13 | the three fields recompose the input, and JavaScript's remainder agrees with Dafny's on non-negative input |
| ClockRoundTrip.FormatTimerDisplayRoundTrip | src/shared/utils/formatting.ts:63-67 | MM:SS with unwrapped minutes reads back as the seconds it was made from |
| Formatting.NormalizeUtc | src/shared/utils/formatting.ts:6-8 | the result ends in 'Z', and it is the input exactly when the input already does |
| Formatting.NormalizeUtcIdempotent | src/shared/utils/formatting.ts:6-8 | normalising twice equals normalising once |
| Progress.TrainingDays | src/backend/services/progressService.ts:112-117 | the distinct days of completed workouts' started_at, strictly descending |
| Progress.Streak | src/backend/services/progressService.ts:121-137 | at most the number of days; the k-th day of the run is today minus k, and the next day breaks the run |
| Progress.CurrentStreak | src/backend/services/progressService.ts:125-135 | the counting loop computes Streak |
| Progress.GetCurrentStreak | src/backend/services/progressService.ts:110-138 | the streak over the training days; 0 when nothing is completed |
| Progress.StreakMeaning | src/backend/services/progressService.ts:121-137 | with no training day after today, the streak is the number of consecutive trained days ending today, and 0 when today has none |
| Progress.MaxPresent | src/backend/services/progressService.ts:33-45 | SQL MAX: null exactly when every value is null; otherwise one of the values and at least all of them |
| Progress.GetPersonalRecords | src/backend/services/progressService.ts:25-45 | maxWeight and maxReps are attained by a set of that exercise in a completed workout and bound every such set |
| Progress.RecordsIgnoreUnfinished | src/backend/services/progressService.ts:33-45 | a set of a workout that is not completed does not change the records |
| Settings.LocaleDefaultUnits | src/backend/store/settingsStore.ts:14-31 | imperial exactly when the locale starts with one of the US, Myanmar or Liberia prefixes |
| Settings.ReadSetting | src/backend/store/settingsStore.ts:33-39 | the stored value, or null when the key has no row |
| Settings.WriteSetting | src/backend/store/settingsStore.ts:41-47 | the last value written for a key is what is read; other keys unchanged |
| Settings.Load | src/backend/store/settingsStore.ts:54-73 | stored units kept only when metric or imperial, else the locale default; rest seconds parsed when present, else 90; a default written back only where the stored value was absent or empty |
| Settings.LoadIsIdempotent | src/backend/store/settingsStore.ts:54-73 | a second load decides the same and writes nothing new |
| Settings.UpdateThenLoad | src/backend/store/settingsStore.ts:75-83 | a value stored by an update is the one the next load caches |
| Settings.SettingsStore.constructor | src/backend/store/settingsStore.ts:50-52 | metric units, 90 seconds, not loaded |
| Settings.SettingsStore.LoadSettings | src/backend/store/settingsStore.ts:54-73 | the cache and the table become what Load decides, and isLoaded is true |
| Settings.SettingsStore.UpdateUnits | src/backend/store/settingsStore.ts:75-78 | writes the row and then the cache; the rest time is unchanged |
| Settings.SettingsStore.UpdateDefaultRestSeconds | src/backend/store/settingsStore.ts:80-83 | writes the row and then the cache; the units are unchanged |
| Timer.SecondsLeft | src/frontend/hooks/useTimer.ts:48-55 | whole seconds left, never negative, and 0 exactly when less than a second remains |
| Timer.RestTimer.constructor | src/frontend/hooks/useTimer.ts:19-23 | inactive, no end time, zero totals |
| Timer.RestTimer.StartTimer | src/frontend/hooks/useTimer.ts:25-34 | active, ending seconds*1000 from now, with total and remaining equal to seconds, even if no notification was scheduled |
| Timer.RestTimer.SkipTimer | src/frontend/hooks/useTimer.ts:36-42 | back to the inactive zero state |
| Timer.RestTimer.AdjustTimer | src/frontend/hooks/useTimer.ts:44-50 | no change when inactive or without an end time; otherwise the end moves by delta*1000 and remaining is recomputed, and the timer stays active |
| Timer.RestTimer.Tick | src/frontend/hooks/useTimer.ts:52-62 | no change when inactive; otherwise remaining is recomputed, and the timer stops, clearing the end time and notification, exactly when it reaches 0; the total never changes |
| ExerciseOrder.ExerciseOrderStore.constructor | src/frontend/hooks/useExerciseOrderStore.ts:12 | the orders map starts empty |
| ExerciseOrder.ExerciseOrderStore.SetOrder | src/frontend/hooks/useExerciseOrderStore.ts:13-14 | the workout maps to the new list, whatever it held; other workouts are unchanged |
| ExerciseOrder.ExerciseOrderStore.ClearOrder | src/frontend/hooks/useExerciseOrderStore.ts:15-19 | the key is removed; clearing an absent key changes nothing; other workouts are unchanged |
| Json.ParseEncode | src/backend/models/workoutType.ts:12-18 | parsing the encoded text gives back the value, for every null, boolean, string, array and object member list of the model |
| Text.ParseIntOfIntToString | src/backend/store/settingsStore.ts:62-81 | parseInt of a stored String(n) is n, for every integer n (JavaScript numbers agree for magnitudes below 2^53) |
| Text.Trim | src/shared/utils/validation.ts:33 | the result is a slice of the input with only whitespace outside it, and neither starts nor ends with whitespace |
| Text.TrimStartDropsSpace | src/shared/utils/validation.ts:33 | everything removed from the start is whitespace |
| Text.TrimEndDropsSpace | src/shared/utils/validation.ts:33 | everything removed from the end is whitespace |
| Text.TrimAllSpace | src/shared/utils/validation.ts:33 | the result is empty exactly when the input is all whitespace |

## Left out

- Opening the SQLite connection and its pragmas (src/backend/database/connection.ts) are I/O and are not modelled. The model assumes the v0→v1 DDL has run: the tables always exist, and their constraints are `Database.Valid()`. There is no "no such table" state.
- The later DDL steps are modelled only by their effect on which columns exist. v1→v2 adds `exercises.rest_seconds`; v2→v3 adds the target-reps columns. Each step's own failure is the `stepError` parameter of `Migrations.Outcome`.
- Floating-point arithmetic is left out:
  - the Epley one-rep-max estimate and volume in `getPersonalRecords`;
  - `getVolumeOverTime`, `getWorkoutFrequency`, `getWeeklyStats` and `getTodayStats`;
  - `getWorkoutSummaries` and `getWorkoutSummaryCount`;
  - the unit conversions and `formatWeight`, `formatDistance`, `formatVolume` and `formatCompactNumber`.
- Set payload numbers are exact reals. IEEE rounding of stored weights and distances is not modelled.
- The platform locale lookup chain of `getLocaleDefaultUnits` is a parameter. Only the prefix rule is modelled.
- The calendar formatting helpers `formatDate`, `formatTime` and `formatRelativeTime` (date-fns) are not modelled. `parseUTCTimestamp` is modelled only through its suffix rule (`NormalizeUtc`), because `new Date` is not part of this model.
- Notifications, haptics and device checks in timerService.ts and useTimer.ts are not modelled. Scheduling is a parameter of `StartTimer`, and cancelling has no modelled effect.
- `Promise.all` fan-out in `getFullWorkout` and `getLatestSetsForExercises` is modelled sequentially.
- `getFullWorkoutsByIds` is not modelled. It maps `getFullWorkout` over a list.
- The service wrappers that only forward to a model function are covered by that function: `updateWorkoutExerciseRestSeconds`, `removeSet`, `removeExerciseFromWorkout`, `discardWorkout`, `deleteWorkout`, `getActiveWorkout` and `getPreviousSetsForExercises`. So is exerciseService.ts.
- The exercise catalogue of src/shared/constants/exercises.ts is a parameter of `Seed.SeedDatabase`. Whether its entries are distinct ignoring case is not checked. `SeedDatabase` states success exactly when they fit the unique constraints.
- Seed.SeedingIsOnce: requires a non-empty catalogue rather than proving the shipped catalogue non-empty, because the catalogue contents are not modelled.
- SQLite NOCASE is modelled as ASCII lower-casing. `LIKE` is modelled as ASCII case-insensitive, as SQLite does.
- JSON values are modelled without numbers, which would need floating point. Custom set fields holding numbers are therefore outside the model.
- DecodeFields: JSON text holding a number (`{"a":5}`) or a `\u` surrogate-pair escape fails to decode in the model, where `JSON.parse` succeeds. The JSON grammar here has no numbers, and its characters are Unicode scalar values, so a lone surrogate half has no representation. Custom fields stored by `add` and `update` are unaffected, because `DecodeStoredFields` reads them back.
- MapSet: inherits that gap from DecodeFields. A row whose custom fields hold a number or a surrogate escape fails in the model but maps in the source.
- DecodeFields: an object whose text repeats a key keeps every member in the model, in text order. `JSON.parse` keeps one property per key, holding the last value at the first key's position, so `{"a":null,"a":true}` is `{a: true}` there. Every writer of these columns uses `JSON.stringify` on a JavaScript object, so stored text never repeats a key.
- MapSet: inherits the repeated-key gap from DecodeFields as well.
- SafeParseFields: has the same repeated-key gap; a field list stored by the app never repeats a key.
- ParseEncode: holds for every object member list, including lists that repeat a key. No JavaScript object has such a list, and for those texts `JSON.parse` would merge the repeated keys, so the lemma's conclusion is about the model's `Parse` only.
- ByWorkoutExercise: returns the set rows undecoded. The source passes each row through `mapRow`, whose `JSON.parse` can throw on malformed custom fields (src/backend/models/workoutSet.ts:27-29). That failure is not modelled here; `MapSet` models it on one row.
- ByWorkout: returns set rows undecoded, with the same gap as ByWorkoutExercise.
- LatestSetsSpec: states its facts about undecoded set rows, with the same gap as ByWorkoutExercise.
- LatestSetsForExercises: returns undecoded set rows, with the same gap as ByWorkoutExercise.
- CompleteWorkout: counts the workout's sets without decoding them, so a malformed custom-fields text does not make it throw as the source's `getByWorkout` would.
- ValidateWeight: NaN is not a value of the model, which uses exact reals. In the source `validateWeight(NaN)` returns null, because every comparison with NaN is false; `parseFloat` of an unparsable entry produces such a NaN.
- ValidateDistance: NaN is not a value of the model either; in the source `validateDistance(NaN)` returns null for the same reason.
- Utf16Length: JavaScript strings may hold unpaired surrogates. Dafny characters are Unicode scalar values, so such strings are outside the model. Every string the model can express has the `.length` this function gives.
- WorkoutService.GetFullWorkout: each exercise's sets are kept as rows, not mapped through `mapRow`. Their custom fields are therefore not decoded there.
- ParseIntOfIntToString: integers are modelled unbounded. JavaScript's `String(n)` and `parseInt` agree with `IntToString` and `ParseIntDecimal` only for |n| < 2^53: above that a number is no longer an exact integer, and from 1e21 on `String` writes exponent notation. The values stored this way (rest times in seconds, counts) stay far below that range.
- IntToString: has the same range; it writes every integer in plain decimal digits.
- UI components, react-query hooks and build and styling files are not modelled.

## Divergences

These are places where the code as written differs from what it evidently
intends. They are modelled as written.

- **Schema version.**
  - src/config/app.ts:4 sets the schema version to 2, so the v2→v3 step (src/backend/database/migrations.ts:89-94) never runs.
  - Yet src/backend/models/workoutExercise.ts:58 inserts `target_reps_min`.
  - `Migrations.ConfiguredSchema` shows the configured run stops at version 2 without the target-reps columns.
  - `WorkoutExercises.AddToWorkout` then fails with `NoSuchColumn`. So does `WorkoutService.AddExerciseToWorkout`. `WorkoutService.RepeatWorkout` on a workout with exercises starts the copy and then fails with `NoSuchColumn`, leaving an empty in-progress workout behind: its `ensures` keep `workout_exercises` and `workout_sets` unchanged before schema version 3.
- **Repeat naming.** `repeatWorkout` appends " (#N)" to the source name verbatim and does not strip an existing suffix (src/backend/services/workoutService.ts:246). `WorkoutService.RepeatNameNests` shows "Push Day (#2)" becoming "Push Day (#2) (#…)".
- **Missing service function.** src/frontend/hooks/useWorkout.ts:206 calls `workoutService.updateExerciseTargetReps`, which workoutService.ts does not define. The service module has no such member. `WorkoutExercises.UpdateTargetReps` models the table helper, which fails at schema version 2.
- **Unchecked reopen.** `reopen` (src/backend/models/workout.ts:81-90) has no application-level single-active check and no service wrapper. `Workouts.Reopen` fails only through the partial unique index.
- **Unchecked complete.** `completeWorkout` (src/backend/services/workoutService.ts:112-121) does not check the workout's status. `WorkoutService.CompleteWorkout` succeeds on a discarded or already completed workout whenever it has sets.
