/** `runMigrations`: brings `PRAGMA user_version` up to the configured schema
    version one step at a time. Each step and its version bump form one
    transaction, so a failing step leaves the version where it was. The tables
    the first step creates, and the constraints they declare, are the invariant
    `Store.Consistent`; the columns later steps add are gated on the version
    (`Store.HasExerciseRestSeconds`, `Store.HasTargetReps`). */
module Migrations {
  import opened Wrappers
  import opened Text
  import opened Config
  import opened Store

  /** The length of the `migrations` array: steps v0→v1, v1→v2 and v2→v3. */
  const MigrationCount: nat := 3

  function MissingMigration(i: nat): string {
    "Missing migration for version " + NatToString(i) + " -> " + NatToString(i + 1)
  }

  /** Step i→i+1 exists and goes through. */
  predicate StepOk(i: nat, stepError: nat -> Option<DbError>) {
    i < MigrationCount && stepError(i).None?
  }

  /** The version a run starting at `v` stops at, and the error it throws, if
      any. `stepError(i)` is what executing step i→i+1 raises, if anything. */
  function Outcome(v: nat, target: nat, stepError: nat -> Option<DbError>): (r: (nat, Option<DbError>))
    ensures v <= r.0
    ensures r.1.None? ==> r.0 == if v < target then target else v
    ensures r.1.Some? ==> r.0 < target
    ensures r.1.Some? ==>
              || (r.0 >= MigrationCount && r.1 == Some(Thrown(MissingMigration(r.0))))
              || (r.0 < MigrationCount && r.1 == stepError(r.0))
    ensures forall i :: v <= i < r.0 ==> StepOk(i, stepError)
    decreases target - v
  {
    if v >= target then (v, None)
    else if v >= MigrationCount then (v, Some(Thrown(MissingMigration(v))))
    else if stepError(v).Some? then (v, stepError(v))
    else
      var r := Outcome(v + 1, target, stepError);
      assert StepOk(v, stepError);
      r
  }

  /** Every step up to the target exists and succeeds exactly when the run succeeds. */
  lemma {:induction false} OutcomeSucceeds(v: nat, target: nat, stepError: nat -> Option<DbError>)
    ensures Outcome(v, target, stepError).1.None? <==>
              forall i :: v <= i < target ==> StepOk(i, stepError)
    decreases target - v
  {
    if v < target {
      if StepOk(v, stepError) {
        OutcomeSucceeds(v + 1, target, stepError);
      }
    }
  }

  /** A second run after a successful one does nothing. */
  lemma RerunIsNoOp(v: nat, target: nat, stepError: nat -> Option<DbError>)
    requires Outcome(v, target, stepError).1.None?
    ensures Outcome(Outcome(v, target, stepError).0, target, stepError) == (Outcome(v, target, stepError).0, None)
  {
  }

  /** Resuming from where a failed run stopped, once the step goes through,
      ends where an uninterrupted run would. */
  lemma {:induction false} ResumeAfterFailure(v: nat, target: nat, e1: nat -> Option<DbError>, e2: nat -> Option<DbError>)
    requires Outcome(v, target, e1).1.Some?
    requires forall i :: i != Outcome(v, target, e1).0 ==> e1(i) == e2(i)
    requires e2(Outcome(v, target, e1).0).None?
    ensures Outcome(Outcome(v, target, e1).0, target, e2) == Outcome(v, target, e2)
    decreases target - v
  {
    var stop := Outcome(v, target, e1).0;
    if v < stop {
      assert StepOk(v, e1);
      ResumeAfterFailure(v + 1, target, e1, e2);
    }
  }

  /** The loop: one transaction per step, version bumped inside it. */
  method MigrateTo(db: Database, target: nat, stepError: nat -> Option<DbError>) returns (r: Result<(), DbError>)
    requires db.Valid()
    modifies db`userVersion
    ensures db.Valid()
    ensures db.userVersion == Outcome(old(db.userVersion), target, stepError).0
    ensures r.Failure? <==> Outcome(old(db.userVersion), target, stepError).1.Some?
    ensures r.Failure? ==> Some(r.error) == Outcome(old(db.userVersion), target, stepError).1
  {
    var current := db.userVersion;
    if current >= target {
      return Success(());
    }
    var i := current;
    while i < target
      invariant current <= i <= target
      invariant db.userVersion == i
      invariant Outcome(current, target, stepError) == Outcome(i, target, stepError)
      decreases target - i
    {
      if i >= MigrationCount {
        return Failure(Thrown(MissingMigration(i)));
      }
      var err := stepError(i);
      if err.Some? {
        return Failure(err.value);
      }
      db.userVersion := i + 1;
      i := i + 1;
    }
    return Success(());
  }

  /** `runMigrations` against the configured schema version. */
  method RunMigrations(db: Database, stepError: nat -> Option<DbError>) returns (r: Result<(), DbError>)
    requires db.Valid()
    modifies db`userVersion
    ensures db.Valid()
    ensures db.userVersion == Outcome(old(db.userVersion), SchemaVersion, stepError).0
    ensures r.Failure? <==> Outcome(old(db.userVersion), SchemaVersion, stepError).1.Some?
    ensures r.Failure? ==> Some(r.error) == Outcome(old(db.userVersion), SchemaVersion, stepError).1
  {
    r := MigrateTo(db, SchemaVersion, stepError);
  }

  /** With the configured version, a fully migrated fresh database has
      `exercises.rest_seconds` but not the target-reps columns of step v2→v3. */
  lemma ConfiguredSchema(stepError: nat -> Option<DbError>)
    requires stepError(0).None? && stepError(1).None?
    ensures Outcome(0, SchemaVersion, stepError) == (2, None)
    ensures HasExerciseRestSeconds(Outcome(0, SchemaVersion, stepError).0)
    ensures !HasTargetReps(Outcome(0, SchemaVersion, stepError).0)
  {
    OutcomeSucceeds(0, SchemaVersion, stepError);
  }
}
