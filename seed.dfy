/** `seedDatabase`: on a database without any built-in exercise, inserts the
    three default workout types and the exercise catalogue in one transaction,
    every row flagged `is_default = 1`. The catalogue (`SEED_EXERCISES`) and the
    UUID generator are parameters. */
module Seed {
  import opened Wrappers
  import opened Text
  import opened Store
  import opened Query
  import WT = WorkoutTypes
  import EX = Exercises

  datatype DefaultWorkoutType = DefaultWorkoutType(name: string, fields: seq<WT.FieldDefinition>)

  /** `DEFAULT_WORKOUT_TYPES`. */
  const DefaultWorkoutTypes: seq<DefaultWorkoutType> := [
    DefaultWorkoutType("Strength Training", [
      WT.FieldDefinition("weight", "number", Some("kg"), true),
      WT.FieldDefinition("reps", "number", None, true)]),
    DefaultWorkoutType("Cardio Session", [
      WT.FieldDefinition("duration", "duration", None, true),
      WT.FieldDefinition("distance", "distance", Some("meters"), false)]),
    DefaultWorkoutType("Flexibility/Stretching", [
      WT.FieldDefinition("duration", "duration", None, true)])
  ]

  /** An entry of the exercise catalogue (`ExerciseSeed`). */
  datatype ExerciseSeed = ExerciseSeed(
    name: string, category: string, primaryMuscles: seq<string>, equipment: string, instructions: string)

  /** The row the type INSERT writes; `created_at` takes its default. */
  function TypeRow(t: DefaultWorkoutType, id: Id, now: Time): WorkoutTypeRow {
    WorkoutTypeRow(id, t.name, WT.EncodeFields(t.fields), 1, now)
  }

  /** The row the exercise INSERT writes: no `rest_seconds` (left NULL), not archived. */
  function ExerciseRowOf(e: ExerciseSeed, id: Id, now: Time): ExerciseRow {
    ExerciseRow(id, e.name, e.category, EX.EncodeMuscles(e.primaryMuscles), e.equipment,
      Some(e.instructions), None, 1, None, now)
  }

  /** The type rows, ids drawn first from the generator. */
  function TypeRows(uuid: nat -> Id, now: Time): (r: seq<WorkoutTypeRow>)
    ensures |r| == |DefaultWorkoutTypes|
    ensures forall i :: 0 <= i < |r| ==> r[i] == TypeRow(DefaultWorkoutTypes[i], uuid(i), now)
  {
    seq(|DefaultWorkoutTypes|, i requires 0 <= i < |DefaultWorkoutTypes| => TypeRow(DefaultWorkoutTypes[i], uuid(i), now))
  }

  /** The exercise rows, ids drawn after the types'. */
  function ExerciseRows(catalogue: seq<ExerciseSeed>, uuid: nat -> Id, now: Time): (r: seq<ExerciseRow>)
    ensures |r| == |catalogue|
    ensures forall i :: 0 <= i < |r| ==>
              r[i] == ExerciseRowOf(catalogue[i], uuid(|DefaultWorkoutTypes| + i), now)
  {
    seq(|catalogue|, i requires 0 <= i < |catalogue| =>
      ExerciseRowOf(catalogue[i], uuid(|DefaultWorkoutTypes| + i), now))
  }

  predicate IsDefaultExercise(e: ExerciseRow) {
    e.isDefault == 1
  }

  /** `SELECT COUNT(*) FROM exercises WHERE is_default = 1` is positive. */
  predicate Seeded(exs: seq<ExerciseRow>) {
    |Filter(exs, IsDefaultExercise)| > 0
  }

  /** The seed rows fit beside the existing rows: no key or name collides. */
  predicate SeedFits(types: seq<WorkoutTypeRow>, exs: seq<ExerciseRow>, catalogue: seq<ExerciseSeed>,
                     uuid: nat -> Id, now: Time)
  {
    && Unique(types + TypeRows(uuid, now), TypeKey)
    && Unique(types + TypeRows(uuid, now), TypeNameKey)
    && Unique(exs + ExerciseRows(catalogue, uuid, now), ExerciseKey)
    && Unique(exs + ExerciseRows(catalogue, uuid, now), ExerciseNameKey)
  }

  /** A row whose key is already among the rows before it breaks the constraint
      on the whole sequence. */
  lemma CollisionBreaksUnique<T>(s: seq<T>, rows: seq<T>, k: nat, key: T -> string)
    requires k < |rows| && key(rows[k]) in Keys(s + rows[..k], key)
    ensures !Unique(s + rows, key)
  {
    var a := s + rows[..k];
    var y :| y in a && key(y) == key(rows[k]);
    var i :| 0 <= i < |a| && a[i] == y;
    assert (s + rows)[i] == y;
    assert (s + rows)[|s| + k] == rows[k];
  }

  /** Appending one seed row after `done` of them. */
  lemma PrefixStep<T>(s: seq<T>, rows: seq<T>, k: nat)
    requires k < |rows|
    ensures s + rows[..k] + [rows[k]] == s + rows[..k + 1]
  {
    assert rows[..k + 1] == rows[..k] + [rows[k]];
  }

  /** Any default row makes the table count as seeded. */
  lemma {:induction false} DefaultRowSeeds(exs: seq<ExerciseRow>, e: ExerciseRow)
    requires e in exs && e.isDefault == 1
    ensures Seeded(exs)
  {
    assert e in Filter(exs, IsDefaultExercise) by {
      FilterMultiset(exs, IsDefaultExercise);
      assert multiset(exs)[e] > 0;
    }
  }

  /** `seedDatabase`. A collision on the way rolls the whole transaction back. */
  method SeedDatabase(db: Database, catalogue: seq<ExerciseSeed>, uuid: nat -> Id, now: Time)
    returns (r: Result<(), DbError>)
    requires db.Valid()
    modifies db`workoutTypes, db`exercises
    ensures db.Valid()
    ensures Seeded(old(db.exercises)) ==>
              r.Success? && db.workoutTypes == old(db.workoutTypes) && db.exercises == old(db.exercises)
    ensures !Seeded(old(db.exercises)) ==>
              (r.Success? <==> SeedFits(old(db.workoutTypes), old(db.exercises), catalogue, uuid, now))
    ensures r.Failure? ==> db.workoutTypes == old(db.workoutTypes) && db.exercises == old(db.exercises)
    ensures r.Success? && !Seeded(old(db.exercises)) ==>
              && db.workoutTypes == old(db.workoutTypes) + TypeRows(uuid, now)
              && db.exercises == old(db.exercises) + ExerciseRows(catalogue, uuid, now)
  {
    if Seeded(db.exercises) {
      return Success(());
    }
    var types0 := db.workoutTypes;
    r := InsertTypeRows(db, TypeRows(uuid, now));
    if r.Failure? {
      return;
    }
    r := InsertExerciseRows(db, ExerciseRows(catalogue, uuid, now));
    if r.Failure? {
      db.workoutTypes := types0;
    }
  }

  /** The type INSERTs one by one; the first collision undoes the ones before it. */
  method InsertTypeRows(db: Database, rows: seq<WorkoutTypeRow>) returns (r: Result<(), DbError>)
    requires db.Valid()
    modifies db`workoutTypes
    ensures db.Valid()
    ensures r.Success? <==>
              Unique(old(db.workoutTypes) + rows, TypeKey) && Unique(old(db.workoutTypes) + rows, TypeNameKey)
    ensures r.Failure? ==> r.error == PrimaryKey("workout_types") || r.error == UniqueName("workout_types")
    ensures db.workoutTypes == if r.Success? then old(db.workoutTypes) + rows else old(db.workoutTypes)
  {
    var types0 := db.workoutTypes;
    var k := 0;
    while k < |rows|
      invariant 0 <= k <= |rows|
      invariant db.Valid()
      invariant db.workoutTypes == types0 + rows[..k]
    {
      var row := rows[k];
      if row.id in Keys(db.workoutTypes, TypeKey) {
        CollisionBreaksUnique(types0, rows, k, TypeKey);
        db.workoutTypes := types0;
        return Failure(PrimaryKey("workout_types"));
      }
      if row.name in Keys(db.workoutTypes, TypeNameKey) {
        CollisionBreaksUnique(types0, rows, k, TypeNameKey);
        db.workoutTypes := types0;
        return Failure(UniqueName("workout_types"));
      }
      UniqueAppend(db.workoutTypes, row, TypeKey);
      UniqueAppend(db.workoutTypes, row, TypeNameKey);
      KeysAppend(db.workoutTypes, row, TypeKey);
      PrefixStep(types0, rows, k);
      db.workoutTypes := db.workoutTypes + [row];
      k := k + 1;
    }
    assert rows[..k] == rows;
    return Success(());
  }

  /** The exercise INSERTs one by one; the first collision undoes the ones before it. */
  method InsertExerciseRows(db: Database, rows: seq<ExerciseRow>) returns (r: Result<(), DbError>)
    requires db.Valid()
    modifies db`exercises
    ensures db.Valid()
    ensures r.Success? <==>
              Unique(old(db.exercises) + rows, ExerciseKey) && Unique(old(db.exercises) + rows, ExerciseNameKey)
    ensures r.Failure? ==> r.error == PrimaryKey("exercises") || r.error == UniqueName("exercises")
    ensures db.exercises == if r.Success? then old(db.exercises) + rows else old(db.exercises)
  {
    var exs0 := db.exercises;
    var k := 0;
    while k < |rows|
      invariant 0 <= k <= |rows|
      invariant db.Valid()
      invariant db.exercises == exs0 + rows[..k]
    {
      var row := rows[k];
      if row.id in Keys(db.exercises, ExerciseKey) {
        CollisionBreaksUnique(exs0, rows, k, ExerciseKey);
        db.exercises := exs0;
        return Failure(PrimaryKey("exercises"));
      }
      if Lower(row.name) in Keys(db.exercises, ExerciseNameKey) {
        CollisionBreaksUnique(exs0, rows, k, ExerciseNameKey);
        db.exercises := exs0;
        return Failure(UniqueName("exercises"));
      }
      UniqueAppend(db.exercises, row, ExerciseKey);
      UniqueAppend(db.exercises, row, ExerciseNameKey);
      KeysAppend(db.exercises, row, ExerciseKey);
      PrefixStep(exs0, rows, k);
      db.exercises := db.exercises + [row];
      k := k + 1;
    }
    assert rows[..k] == rows;
    return Success(());
  }

  /** After a successful seeding with a non-empty catalogue the table counts as
      seeded, so every later call leaves the database alone. */
  lemma SeedingIsOnce(exs: seq<ExerciseRow>, catalogue: seq<ExerciseSeed>, uuid: nat -> Id, now: Time)
    requires |catalogue| > 0
    ensures Seeded(exs + ExerciseRows(catalogue, uuid, now))
  {
    var rows := ExerciseRows(catalogue, uuid, now);
    assert (exs + rows)[|exs|] == rows[0];
    DefaultRowSeeds(exs + rows, rows[0]);
  }

  /** The three default type names are pairwise distinct: the type inserts can
      only collide with rows already present. */
  lemma DefaultTypeNamesDistinct(uuid: nat -> Id, now: Time)
    ensures Unique(TypeRows(uuid, now), TypeNameKey)
  {
    var r := TypeRows(uuid, now);
    assert r[0].name == "Strength Training";
    assert r[1].name == "Cardio Session";
    assert r[2].name == "Flexibility/Stretching";
  }

  /** Distinct generated ids give distinct exercise keys. */
  lemma ExerciseIdsDistinct(catalogue: seq<ExerciseSeed>, uuid: nat -> Id, now: Time)
    requires forall i: nat, j: nat :: i != j ==> uuid(i) != uuid(j)
    ensures Unique(ExerciseRows(catalogue, uuid, now), ExerciseKey)
  {
    var er := ExerciseRows(catalogue, uuid, now);
    var n := |DefaultWorkoutTypes|;
    forall i, j | 0 <= i < j < |er| ensures er[i].id != er[j].id {
      assert er[i].id == uuid(n + i) && er[j].id == uuid(n + j);
    }
  }

  /** On an empty database, seeding succeeds once the generator never repeats
      an id and the catalogue names are distinct ignoring case. */
  lemma SeedFitsEmpty(catalogue: seq<ExerciseSeed>, uuid: nat -> Id, now: Time)
    requires forall i: nat, j: nat :: i != j ==> uuid(i) != uuid(j)
    requires forall i, j :: 0 <= i < j < |catalogue| ==> Lower(catalogue[i].name) != Lower(catalogue[j].name)
    ensures SeedFits([], [], catalogue, uuid, now)
  {
    var tr := TypeRows(uuid, now);
    var er := ExerciseRows(catalogue, uuid, now);
    assert [] + tr == tr;
    assert [] + er == er;
    DefaultTypeNamesDistinct(uuid, now);
    ExerciseIdsDistinct(catalogue, uuid, now);
    assert Unique(tr, TypeKey) by {
      forall i, j | 0 <= i < j < |tr| ensures tr[i].id != tr[j].id {
        assert tr[i].id == uuid(i) && tr[j].id == uuid(j);
      }
    }
    assert Unique(er, ExerciseNameKey) by {
      forall i, j | 0 <= i < j < |er| ensures Lower(er[i].name) != Lower(er[j].name) {
        assert er[i].name == catalogue[i].name && er[j].name == catalogue[j].name;
      }
    }
  }

  /** A seeded type reads back as a default type with the field definitions it
      was written with. */
  lemma SeededTypeFields(t: DefaultWorkoutType, id: Id, now: Time)
    ensures WT.MapType(TypeRow(t, id, now)).isDefault
    ensures WT.MapType(TypeRow(t, id, now)).name == t.name
    ensures var f := WT.MapType(TypeRow(t, id, now)).fields;
              f == WT.FieldsValue(t.fields) && WT.DecodeFieldList(f.items) == Some(t.fields)
  {
    WT.SafeParseEncodedFields(t.fields);
  }
}
