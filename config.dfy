/** The application constants the data layer reads: the schema version the
    migrator brings the database to, the default rest times per exercise
    category, and the bounds of the input validators. */
module Config {

  /** The `user_version` the migrator brings the database to. */
  const SchemaVersion: nat := 2

  const StrengthRestSeconds: int := 90
  const CardioRestSeconds: int := 60
  const FlexibilityRestSeconds: int := 60

  /** The unit system a fresh settings cache starts with. */
  const DefaultUnits: string := "metric"

  const WeightMin: real := 0.0
  const WeightMax: real := 9999.0
  const RepsMin: real := 1.0
  const RepsMax: real := 9999.0
  /** Seconds; 359999 is 99:59:59. */
  const DurationMin: real := 1.0
  const DurationMax: real := 359999.0
  const DistanceMin: real := 0.01
  const DistanceMax: real := 9999.99
  const ExerciseNameMin: nat := 1
  const ExerciseNameMax: nat := 100
  const WorkoutNameMax: nat := 200
  const NotesMax: nat := 1000
}
