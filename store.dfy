/** The SQLite database the data layer works on: one sequence of rows per table
    (in rowid order), the key/value settings table, and `PRAGMA user_version`.
    Row identifiers are the UUID strings the code generates; timestamps are the
    `datetime('now')` values, modelled as whole seconds, which order the same way
    as the "YYYY-MM-DD HH:MM:SS" text SQLite stores. */
module Store {
  import opened Wrappers
  import opened Text
  import opened Query

  type Id = string
  type Time = int

  /** The `status` column of `workouts`. */
  datatype Status = InProgress | Completed | Discarded

  datatype WorkoutTypeRow = WorkoutTypeRow(
    id: Id, name: string, fields: string, isDefault: int, createdAt: Time)

  datatype ExerciseRow = ExerciseRow(
    id: Id, name: string, category: string, primaryMuscles: string, equipment: string,
    instructions: Option<string>, restSeconds: Option<int>, isDefault: int,
    archivedAt: Option<Time>, createdAt: Time)

  datatype WorkoutRow = WorkoutRow(
    id: Id, workoutTypeId: Id, name: Option<string>, status: Status, startedAt: Time,
    completedAt: Option<Time>, notes: Option<string>, createdAt: Time)

  datatype WorkoutExerciseRow = WorkoutExerciseRow(
    id: Id, workoutId: Id, exerciseId: Id, sortOrder: int, restSeconds: int,
    targetRepsMin: Option<int>, targetRepsMax: Option<int>, notes: Option<string>,
    createdAt: Time)

  /** `customFields` holds the stored JSON text. */
  datatype WorkoutSetRow = WorkoutSetRow(
    id: Id, workoutExerciseId: Id, setNumber: int, reps: Option<real>, weightKg: Option<real>,
    durationSeconds: Option<real>, distanceMeters: Option<real>, customFields: Option<string>,
    completedAt: Option<Time>, createdAt: Time)

  /** Why a statement or a service call fails: a constraint SQLite enforces, a
      column the schema does not have yet, or an Error the code throws. */
  datatype DbError =
    | PrimaryKey(table: string)
    | UniqueName(table: string)
    | SingleActive
    | ForeignKey
    | NoSuchColumn(table: string, column: string)
    | InvalidJson
    | Thrown(message: string)

  // ---------------------------------------------------------------------------
  // Keys.

  function TypeKey(r: WorkoutTypeRow): Id { r.id }
  function ExerciseKey(r: ExerciseRow): Id { r.id }
  function WorkoutKey(r: WorkoutRow): Id { r.id }
  function WorkoutExerciseKey(r: WorkoutExerciseRow): Id { r.id }
  function SetKey(r: WorkoutSetRow): Id { r.id }
  function TypeNameKey(r: WorkoutTypeRow): string { r.name }
  /** `UNIQUE(name COLLATE NOCASE)`: names compare after ASCII case folding. */
  function ExerciseNameKey(r: ExerciseRow): string { Lower(r.name) }

  /** The keys of a table's rows. */
  function Keys<T(==)>(s: seq<T>, key: T -> string): set<string> {
    set r | r in s :: key(r)
  }

  /** No two rows share a key: a PRIMARY KEY or UNIQUE constraint. */
  predicate Unique<T>(s: seq<T>, key: T -> string) {
    forall i, j :: 0 <= i < j < |s| ==> key(s[i]) != key(s[j])
  }

  /** `SELECT * ... WHERE <key> = k`, first row: None when no row has that key. */
  function Lookup<T(==)>(s: seq<T>, key: T -> string, k: string): (r: Option<T>)
    ensures r.None? <==> k !in Keys(s, key)
    ensures r.Some? ==> r.value in s && key(r.value) == k
  {
    if s == [] then None
    else
      assert s == [s[0]] + s[1..];
      if key(s[0]) == k then Some(s[0]) else Lookup(s[1..], key, k)
  }

  /** Under a key constraint the row found is the one row with that key. */
  lemma LookupAt<T>(s: seq<T>, key: T -> string, i: int)
    requires Unique(s, key) && 0 <= i < |s|
    ensures Lookup(s, key, key(s[i])) == Some(s[i])
  {
    var r := Lookup(s, key, key(s[i]));
    assert s[i] in s;
    var j :| 0 <= j < |s| && s[j] == r.value;
  }

  /** Deleting rows keeps a key constraint. */
  lemma {:induction false} UniqueFilter<T(!new)>(s: seq<T>, keep: T -> bool, key: T -> string)
    requires Unique(s, key)
    ensures Unique(Filter(s, keep), key)
  {
    if s != [] {
      UniqueFilter(s[1..], keep, key);
      var rest := Filter(s[1..], keep);
      forall j | 0 <= j < |rest| ensures key(s[0]) != key(rest[j]) {
        assert rest[j] in s[1..];
        var k :| 0 <= k < |s[1..]| && s[1..][k] == rest[j];
        assert s[k + 1] == rest[j];
      }
      var r := Filter(s, keep);
      if keep(s[0]) {
        assert r == [s[0]] + rest;
        forall i, j | 0 <= i < j < |r| ensures key(r[i]) != key(r[j]) {
          if i > 0 {
            assert r[i] == rest[i - 1] && r[j] == rest[j - 1];
          } else {
            assert r[j] == rest[j - 1];
          }
        }
      }
    }
  }

  lemma UniqueAppend<T>(s: seq<T>, x: T, key: T -> string)
    requires Unique(s, key) && key(x) !in Keys(s, key)
    ensures Unique(s + [x], key)
  {
    forall i, j | 0 <= i < j < |s + [x]| ensures key((s + [x])[i]) != key((s + [x])[j]) {
      if j == |s| {
        assert s[i] in s;
      }
    }
  }

  lemma KeysAppend<T>(s: seq<T>, x: T, key: T -> string)
    ensures Keys(s + [x], key) == Keys(s, key) + {key(x)}
  {
    assert forall r :: r in s + [x] <==> r in s || r == x;
  }

  /** The `idx_workouts_single_active` partial unique index. */
  predicate AtMostOneActive(ws: seq<WorkoutRow>) {
    forall i, j :: 0 <= i < j < |ws| && ws[i].status == InProgress ==> ws[j].status != InProgress
  }

  predicate NoneActive(ws: seq<WorkoutRow>) {
    forall i :: 0 <= i < |ws| ==> ws[i].status != InProgress
  }

  // ---------------------------------------------------------------------------
  // Foreign keys (`PRAGMA foreign_keys = ON`).

  predicate WorkoutsReferTypes(ws: seq<WorkoutRow>, types: seq<WorkoutTypeRow>) {
    forall w :: w in ws ==> w.workoutTypeId in Keys(types, TypeKey)
  }

  predicate LinksReferWorkouts(links: seq<WorkoutExerciseRow>, ws: seq<WorkoutRow>) {
    forall l :: l in links ==> l.workoutId in Keys(ws, WorkoutKey)
  }

  predicate LinksReferExercises(links: seq<WorkoutExerciseRow>, exs: seq<ExerciseRow>) {
    forall l :: l in links ==> l.exerciseId in Keys(exs, ExerciseKey)
  }

  predicate SetsReferLinks(sets: seq<WorkoutSetRow>, links: seq<WorkoutExerciseRow>) {
    forall s :: s in sets ==> s.workoutExerciseId in Keys(links, WorkoutExerciseKey)
  }

  /** Every constraint the v0→v1 schema declares, over the five tables. */
  predicate Consistent(
    types: seq<WorkoutTypeRow>, exs: seq<ExerciseRow>, ws: seq<WorkoutRow>,
    links: seq<WorkoutExerciseRow>, sets: seq<WorkoutSetRow>)
  {
    && Unique(types, TypeKey) && Unique(types, TypeNameKey)
    && Unique(exs, ExerciseKey) && Unique(exs, ExerciseNameKey)
    && Unique(ws, WorkoutKey) && AtMostOneActive(ws)
    && Unique(links, WorkoutExerciseKey)
    && Unique(sets, SetKey)
    && WorkoutsReferTypes(ws, types)
    && LinksReferWorkouts(links, ws) && LinksReferExercises(links, exs)
    && SetsReferLinks(sets, links)
  }

  // ---------------------------------------------------------------------------
  // Columns added by later migrations.

  /** `exercises.rest_seconds` is added by step v1→v2. */
  predicate HasExerciseRestSeconds(userVersion: nat) {
    userVersion >= 2
  }

  /** `workout_exercises.target_reps_min/max` are added by step v2→v3. */
  predicate HasTargetReps(userVersion: nat) {
    userVersion >= 3
  }

  /** The database handle. The repository functions take it as their first
      argument, as the TypeScript functions take the SQLite handle. */
  class Database {
    var userVersion: nat
    var workoutTypes: seq<WorkoutTypeRow>
    var exercises: seq<ExerciseRow>
    var workouts: seq<WorkoutRow>
    var workoutExercises: seq<WorkoutExerciseRow>
    var workoutSets: seq<WorkoutSetRow>
    var settings: map<string, string>

    predicate Valid()
      reads this
    {
      Consistent(workoutTypes, exercises, workouts, workoutExercises, workoutSets)
    }

    /** A freshly opened database file: version 0, no rows. */
    constructor ()
      ensures Valid()
      ensures userVersion == 0 && settings == map[]
      ensures workoutTypes == [] && exercises == [] && workouts == []
      ensures workoutExercises == [] && workoutSets == []
    {
      userVersion := 0;
      workoutTypes := [];
      exercises := [];
      workouts := [];
      workoutExercises := [];
      workoutSets := [];
      settings := map[];
    }
  }
}
