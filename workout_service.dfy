/** The workout service: the operations the screens call, composed from the
    table functions with the application-level checks the tables do not make
    (a single workout in progress, input validation, no completion without sets). */
module WorkoutService {
  import opened Wrappers
  import opened Text
  import opened Config
  import opened Store
  import opened Query
  import opened Validation
  import opened RestDefaults
  import W = Workouts
  import WE = WorkoutExercises
  import WS = WorkoutSets
  import WT = WorkoutTypes
  import EX = Exercises

  // ---------------------------------------------------------------------------
  // startWorkout

  const AlreadyActive: string :=
    "A workout is already in progress. Complete or discard it before starting a new one."

  /** `startWorkout`: refuses while a workout is in progress, otherwise `create`. */
  method StartWorkout(db: Database, typeId: Id, name: Option<string>, id: Id, now: Time)
    returns (r: Result<WorkoutRow, DbError>)
    requires db.Valid()
    modifies db`workouts
    ensures db.Valid()
    ensures !NoneActive(old(db.workouts)) ==> r == Failure(Thrown(AlreadyActive))
    ensures r.Success? <==>
              && NoneActive(old(db.workouts))
              && id !in Keys(old(db.workouts), WorkoutKey)
              && typeId in Keys(db.workoutTypes, TypeKey)
    ensures r.Failure? ==> db.workouts == old(db.workouts)
    ensures r.Success? ==>
              && r.value == W.NewWorkout(typeId, name, id, now) && r.value.status == InProgress
              && db.workouts == old(db.workouts) + [r.value]
  {
    if W.GetActive(db.workouts).Some? {
      return Failure(Thrown(AlreadyActive));
    }
    r := W.Create(db, typeId, name, id, now);
  }

  // ---------------------------------------------------------------------------
  // addExerciseToWorkout

  /** The rest time `addExerciseToWorkout` stores. */
  function ResolveRestSeconds(exs: seq<ExerciseRow>, exerciseId: Id, restSeconds: Option<int>): int {
    match restSeconds
    case Some(s) => s
    case None =>
      match EX.GetById(exs, exerciseId)
      case None => StrengthRestSeconds
      case Some(e) => e.restSeconds.GetOr(DefaultRestSeconds(e.category))
  }

  /** The fallback chain: an explicit value wins (0 included), then the
      exercise's own rest time, then its category's default; an unknown exercise
      gets the strength default. */
  lemma RestResolution(exs: seq<ExerciseRow>, exerciseId: Id, restSeconds: Option<int>)
    requires Unique(exs, ExerciseKey)
    ensures restSeconds.Some? ==> ResolveRestSeconds(exs, exerciseId, restSeconds) == restSeconds.value
    ensures restSeconds.None? && exerciseId !in Keys(exs, ExerciseKey) ==>
              ResolveRestSeconds(exs, exerciseId, restSeconds) == 90
    ensures forall e :: restSeconds.None? && e in exs && e.id == exerciseId ==>
              ResolveRestSeconds(exs, exerciseId, restSeconds) ==
                if e.restSeconds.Some? then e.restSeconds.value else DefaultRestSeconds(e.category)
  {
    forall e | restSeconds.None? && e in exs && e.id == exerciseId
      ensures ResolveRestSeconds(exs, exerciseId, restSeconds) ==
                if e.restSeconds.Some? then e.restSeconds.value else DefaultRestSeconds(e.category)
    {
      var i :| 0 <= i < |exs| && exs[i] == e;
      LookupAt(exs, ExerciseKey, i);
    }
  }

  /** `addExerciseToWorkout`: `addToWorkout` with the resolved rest time. */
  method AddExerciseToWorkout(db: Database, workoutId: Id, exerciseId: Id, restSeconds: Option<int>, id: Id, now: Time)
    returns (r: Result<WorkoutExerciseRow, DbError>)
    requires db.Valid()
    modifies db`workoutExercises
    ensures db.Valid()
    ensures r.Success? <==>
              && HasTargetReps(db.userVersion)
              && id !in Keys(old(db.workoutExercises), WorkoutExerciseKey)
              && workoutId in Keys(db.workouts, WorkoutKey)
              && exerciseId in Keys(db.exercises, ExerciseKey)
    ensures !HasTargetReps(db.userVersion) ==> r == Failure(NoSuchColumn("workout_exercises", "target_reps_min"))
    ensures r.Failure? ==> db.workoutExercises == old(db.workoutExercises)
    ensures r.Success? ==>
              && r.value == WE.NewLink(old(db.workoutExercises), workoutId, exerciseId,
                                       ResolveRestSeconds(db.exercises, exerciseId, restSeconds), None, None, id, now)
              && db.workoutExercises == old(db.workoutExercises) + [r.value]
  {
    var rest := ResolveRestSeconds(db.exercises, exerciseId, restSeconds);
    r := WE.AddToWorkout(db, workoutId, exerciseId, rest, None, None, id, now);
  }

  // ---------------------------------------------------------------------------
  // logSet, updateSet

  /** One check each; an absent field passes. */
  function CheckWeight(w: Option<real>): (r: Option<string>)
    ensures r.None? <==> (w.Some? ==> WeightMin <= w.value <= WeightMax)
  {
    if w.Some? then ValidateWeight(w.value) else None
  }

  function CheckReps(n: Option<real>): (r: Option<string>)
    ensures r.None? <==> (n.Some? ==> IsInteger(n.value) && RepsMin <= n.value <= RepsMax)
  {
    if n.Some? then ValidateReps(n.value) else None
  }

  function CheckDuration(d: Option<real>): (r: Option<string>)
    ensures r.None? <==> (d.Some? ==> IsInteger(d.value) && DurationMin <= d.value <= DurationMax)
  {
    if d.Some? then ValidateDuration(d.value) else None
  }

  function CheckDistance(d: Option<real>): (r: Option<string>)
    ensures r.None? <==> (d.Some? ==> DistanceMin <= d.value <= DistanceMax)
  {
    if d.Some? then ValidateDistance(d.value) else None
  }

  /** The error `logSet` and `updateSet` throw, if any: the first failing check. */
  function CheckSetInput(data: WS.SetInput): (r: Option<string>)
    ensures r.None? <==>
              && (data.weightKg.Some? ==> WeightMin <= data.weightKg.value <= WeightMax)
              && (data.reps.Some? ==> IsInteger(data.reps.value) && RepsMin <= data.reps.value <= RepsMax)
              && (data.durationSeconds.Some? ==>
                    IsInteger(data.durationSeconds.value) && DurationMin <= data.durationSeconds.value <= DurationMax)
              && (data.distanceMeters.Some? ==> DistanceMin <= data.distanceMeters.value <= DistanceMax)
    ensures r.Some? ==>
              || r == CheckWeight(data.weightKg)
              || (CheckWeight(data.weightKg).None? && r == CheckReps(data.reps))
              || (CheckWeight(data.weightKg).None? && CheckReps(data.reps).None?
                  && r == CheckDuration(data.durationSeconds))
              || (CheckWeight(data.weightKg).None? && CheckReps(data.reps).None?
                  && CheckDuration(data.durationSeconds).None? && r == CheckDistance(data.distanceMeters))
  {
    var w := CheckWeight(data.weightKg);
    var n := CheckReps(data.reps);
    var d := CheckDuration(data.durationSeconds);
    if w.Some? then w else if n.Some? then n else if d.Some? then d else CheckDistance(data.distanceMeters)
  }

  /** `logSet`: validation, then `add`; a rejected input writes nothing. */
  method LogSet(db: Database, workoutExerciseId: Id, data: WS.SetInput, id: Id, now: Time)
    returns (r: Result<WorkoutSetRow, DbError>)
    requires db.Valid()
    modifies db`workoutSets
    ensures db.Valid()
    ensures CheckSetInput(data).Some? ==> r == Failure(Thrown(CheckSetInput(data).value))
    ensures r.Success? <==>
              && CheckSetInput(data).None?
              && id !in Keys(old(db.workoutSets), SetKey)
              && workoutExerciseId in Keys(db.workoutExercises, WorkoutExerciseKey)
    ensures r.Failure? ==> db.workoutSets == old(db.workoutSets)
    ensures r.Success? ==>
              && r.value == WS.NewSet(old(db.workoutSets), workoutExerciseId, data, id, now)
              && db.workoutSets == old(db.workoutSets) + [r.value]
  {
    var err := CheckSetInput(data);
    if err.Some? {
      return Failure(Thrown(err.value));
    }
    r := WS.Add(db, workoutExerciseId, data, id, now);
  }

  /** `updateSet`: validation, then `update`; a rejected input writes nothing. */
  method UpdateSet(db: Database, setId: Id, data: WS.SetInput) returns (r: Result<WorkoutSetRow, DbError>)
    requires db.Valid()
    modifies db`workoutSets
    ensures db.Valid()
    ensures CheckSetInput(data).Some? ==> r == Failure(Thrown(CheckSetInput(data).value)) && db.workoutSets == old(db.workoutSets)
    ensures CheckSetInput(data).None? ==> db.workoutSets == WS.WithPayload(old(db.workoutSets), setId, data)
    ensures r.Success? <==> CheckSetInput(data).None? && setId in Keys(old(db.workoutSets), SetKey)
    ensures r.Success? ==> r.value == WS.Overwrite(Lookup(old(db.workoutSets), SetKey, setId).value, data)
  {
    var err := CheckSetInput(data);
    if err.Some? {
      return Failure(Thrown(err.value));
    }
    r := WS.Update(db, setId, data);
  }

  // ---------------------------------------------------------------------------
  // completeWorkout

  const NoSets: string := "Cannot complete a workout with no logged sets."

  /** Some set hangs from an exercise row of the workout. */
  predicate HasSets(links: seq<WorkoutExerciseRow>, sets: seq<WorkoutSetRow>, workoutId: Id) {
    exists s :: s in sets && WS.LinkOf(links, s).Some? && WS.LinkOf(links, s).value.workoutId == workoutId
  }

  /** `completeWorkout`: refuses a workout without sets; otherwise `complete`,
      whatever the workout's status. */
  method CompleteWorkout(db: Database, workoutId: Id, now: Time) returns (r: Result<(), DbError>)
    requires db.Valid()
    modifies db`workouts
    ensures db.Valid()
    ensures r.Success? <==> HasSets(db.workoutExercises, db.workoutSets, workoutId)
    ensures r.Failure? ==> r.error == Thrown(NoSets) && db.workouts == old(db.workouts)
    ensures r.Success? ==> db.workouts == W.WithChange(old(db.workouts), workoutId, W.MarkCompleted(now))
  {
    var sets := WS.ByWorkout(db.workoutExercises, db.workoutSets, workoutId);
    if |sets| == 0 {
      assert !HasSets(db.workoutExercises, db.workoutSets, workoutId) by {
        forall s | s in db.workoutSets
          ensures !(WS.LinkOf(db.workoutExercises, s).Some? && WS.LinkOf(db.workoutExercises, s).value.workoutId == workoutId)
        {
          assert s !in sets;
        }
      }
      return Failure(Thrown(NoSets));
    }
    assert sets[0] in sets;
    W.Complete(db, workoutId, now);
    return Success(());
  }

  // ---------------------------------------------------------------------------
  // deleteWorkouts

  /** The ids of the exercise rows of any of `ids`' workouts. */
  function LinkIdsAmong(links: seq<WorkoutExerciseRow>, ids: seq<Id>): (r: set<Id>)
    ensures forall x :: x in r <==> exists l :: l in links && l.workoutId in ids && l.id == x
  {
    set l | l in links && l.workoutId in ids :: l.id
  }

  /** One more `remove` in the loop: deleting the sets of the workout's rows that
      are left is deleting the sets of all the rows the workouts so far had. */
  lemma RemoveStep(oldLinks: seq<WorkoutExerciseRow>, ids: seq<Id>, i: int, links: seq<WorkoutExerciseRow>, parent: Id)
    requires 0 <= i < |ids|
    requires forall l :: l in links <==> l in oldLinks && l.workoutId !in ids[..i]
    ensures parent !in LinkIdsAmong(oldLinks, ids[..i + 1]) <==>
              parent !in LinkIdsAmong(oldLinks, ids[..i]) && parent !in W.LinkIds(links, ids[i])
  {
    assert ids[..i + 1] == ids[..i] + [ids[i]];
    if parent in LinkIdsAmong(oldLinks, ids[..i + 1]) && parent !in LinkIdsAmong(oldLinks, ids[..i]) {
      var l :| l in oldLinks && l.workoutId in ids[..i + 1] && l.id == parent;
      assert l in links;
    }
  }

  /** `deleteWorkouts`: `remove` for each id in turn, which comes to removing all
      the workouts, their exercise rows and those rows' sets. */
  method DeleteWorkouts(db: Database, ids: seq<Id>)
    requires db.Valid()
    modifies db`workoutSets, db`workoutExercises, db`workouts
    ensures db.Valid()
    ensures forall w :: w in db.workouts <==> w in old(db.workouts) && w.id !in ids
    ensures forall l :: l in db.workoutExercises <==> l in old(db.workoutExercises) && l.workoutId !in ids
    ensures forall s :: s in db.workoutSets <==>
              s in old(db.workoutSets) && s.workoutExerciseId !in LinkIdsAmong(old(db.workoutExercises), ids)
  {
    var i := 0;
    while i < |ids|
      invariant 0 <= i <= |ids|
      invariant db.Valid()
      invariant forall w :: w in db.workouts <==> w in old(db.workouts) && w.id !in ids[..i]
      invariant forall l :: l in db.workoutExercises <==> l in old(db.workoutExercises) && l.workoutId !in ids[..i]
      invariant forall s :: s in db.workoutSets <==>
                  s in old(db.workoutSets) && s.workoutExerciseId !in LinkIdsAmong(old(db.workoutExercises), ids[..i])
    {
      ghost var links := db.workoutExercises;
      assert ids[..i + 1] == ids[..i] + [ids[i]];
      W.Remove(db, ids[i]);
      forall s ensures s in db.workoutSets <==>
          s in old(db.workoutSets) && s.workoutExerciseId !in LinkIdsAmong(old(db.workoutExercises), ids[..i + 1])
      {
        RemoveStep(old(db.workoutExercises), ids, i, links, s.workoutExerciseId);
      }
      i := i + 1;
    }
    assert ids[..i] == ids;
  }

  // ---------------------------------------------------------------------------
  // getFullWorkout

  /** `WorkoutFull`: the workout, its type, and its exercises each with its sets. */
  datatype WorkoutFull = WorkoutFull(workout: WorkoutRow, workoutType: WT.WorkoutType, exercises: seq<WE.WorkoutExerciseFull>)

  function TypeNotFound(typeId: Id): string {
    "WorkoutType " + typeId + " not found"
  }

  /** Each exercise row with its sets (`getByWorkoutExercise`). */
  function WithSets(rows: seq<WE.WorkoutExerciseFull>, sets: seq<WorkoutSetRow>): (r: seq<WE.WorkoutExerciseFull>)
    ensures |r| == |rows|
    ensures forall i :: 0 <= i < |rows| ==> r[i] == rows[i].(sets := WS.ByWorkoutExercise(sets, rows[i].link.id))
  {
    seq(|rows|, i requires 0 <= i < |rows| => rows[i].(sets := WS.ByWorkoutExercise(sets, rows[i].link.id)))
  }

  /** `getFullWorkout`: None for an unknown workout; throws when its type is missing. */
  function GetFullWorkout(
    types: seq<WorkoutTypeRow>, exs: seq<ExerciseRow>, ws: seq<WorkoutRow>,
    links: seq<WorkoutExerciseRow>, sets: seq<WorkoutSetRow>, workoutId: Id): (r: Result<Option<WorkoutFull>, DbError>)
    ensures r == Success(None) <==> workoutId !in Keys(ws, WorkoutKey)
    ensures r.Failure? <==>
              workoutId in Keys(ws, WorkoutKey) && W.GetById(ws, workoutId).value.workoutTypeId !in Keys(types, TypeKey)
    ensures r.Failure? ==> r.error.Thrown?
  {
    match W.GetById(ws, workoutId)
    case None => Success(None)
    case Some(w) =>
      match WT.GetById(types, w.workoutTypeId)
      case None => Failure(Thrown(TypeNotFound(w.workoutTypeId)))
      case Some(t) =>
        var rows := WE.ByWorkout(links, exs, workoutId);
        Success(Some(WorkoutFull(w, t, WithSets(rows, sets))))
  }

  /** What a found workout holds: the workout row and its type, its exercise rows
      in `sort_order` order, and under each exactly that row's sets in set-number
      order. */
  lemma GetFullWorkoutContent(
    types: seq<WorkoutTypeRow>, exs: seq<ExerciseRow>, ws: seq<WorkoutRow>,
    links: seq<WorkoutExerciseRow>, sets: seq<WorkoutSetRow>, workoutId: Id)
    ensures var r := GetFullWorkout(types, exs, ws, links, sets, workoutId);
      r.Success? && r.value.Some? ==>
        var f := r.value.value;
        && f.workout in ws && f.workout.id == workoutId
        && f.workoutType.id == f.workout.workoutTypeId
        && (forall i, j :: 0 <= i < j < |f.exercises| ==> f.exercises[i].link.sortOrder <= f.exercises[j].link.sortOrder)
        && (forall i :: 0 <= i < |f.exercises| ==>
              && f.exercises[i].link in links && f.exercises[i].link.workoutId == workoutId
              && (forall s :: s in f.exercises[i].sets <==> s in sets && s.workoutExerciseId == f.exercises[i].link.id)
              && (forall a, b :: 0 <= a < b < |f.exercises[i].sets| ==>
                    f.exercises[i].sets[a].setNumber <= f.exercises[i].sets[b].setNumber))
  {
  }

  /** On a consistent database `getFullWorkout` never throws, and when every
      exercise row's sets are numbered 1..n it lists them as 1, 2, ..., n. */
  lemma FullWorkoutOnConsistentData(
    types: seq<WorkoutTypeRow>, exs: seq<ExerciseRow>, ws: seq<WorkoutRow>,
    links: seq<WorkoutExerciseRow>, sets: seq<WorkoutSetRow>, workoutId: Id)
    requires Consistent(types, exs, ws, links, sets)
    requires forall l :: l in links ==> WS.Dense(WS.SetNumbers(sets, l.id))
    ensures GetFullWorkout(types, exs, ws, links, sets, workoutId).Success?
    ensures var r := GetFullWorkout(types, exs, ws, links, sets, workoutId);
      r.value.Some? ==> forall i, k :: 0 <= i < |r.value.value.exercises| && 0 <= k < |r.value.value.exercises[i].sets| ==>
        r.value.value.exercises[i].sets[k].setNumber == k + 1
  {
    if W.GetById(ws, workoutId).Some? {
      var w := W.GetById(ws, workoutId).value;
      assert w in ws && w.workoutTypeId in Keys(types, TypeKey);
      WithSetsNumbered(WE.ByWorkout(links, exs, workoutId), sets);
    }
  }

  /** Rows whose sets are numbered 1..n list them as 1, 2, ..., n. */
  lemma WithSetsNumbered(rows: seq<WE.WorkoutExerciseFull>, sets: seq<WorkoutSetRow>)
    requires forall i :: 0 <= i < |rows| ==> WS.Dense(WS.SetNumbers(sets, rows[i].link.id))
    ensures forall i, k :: 0 <= i < |rows| && 0 <= k < |WithSets(rows, sets)[i].sets| ==>
              WithSets(rows, sets)[i].sets[k].setNumber == k + 1
  {
    var r := WithSets(rows, sets);
    forall i, k | 0 <= i < |rows| && 0 <= k < |r[i].sets| ensures r[i].sets[k].setNumber == k + 1 {
      WS.ListedInOrder(sets, rows[i].link.id);
    }
  }

  // ---------------------------------------------------------------------------
  // repeatWorkout

  const SourceNotFound: string := "Source workout not found"

  function SameTypeCompleted(typeId: Id): WorkoutRow -> bool {
    (w: WorkoutRow) => w.workoutTypeId == typeId && w.status == Completed
  }

  /** `source.name || source.workoutType.name`: an empty name counts as none. */
  function BaseName(f: WorkoutFull): string {
    if f.workout.name.Some? && f.workout.name.value != "" then f.workout.name.value else f.workoutType.name
  }

  /** `SELECT COUNT(*) ... WHERE workout_type_id = ? AND status = 'completed'`. */
  function CompletedOfType(ws: seq<WorkoutRow>, typeId: Id): nat {
    if ws == [] then 0
    else (if ws[0].workoutTypeId == typeId && ws[0].status == Completed then 1 else 0) + CompletedOfType(ws[1..], typeId)
  }

  lemma {:induction false} FilterCountsCompleted(ws: seq<WorkoutRow>, typeId: Id)
    ensures |Filter(ws, SameTypeCompleted(typeId))| == CompletedOfType(ws, typeId)
    decreases |ws|
  {
    if ws != [] {
      FilterCountsCompleted(ws[1..], typeId);
    }
  }

  /** The copy's name: the base verbatim, then " (#", then the decimal count of
      the type's completed workouts plus one, which `parseInt` reads back, then ")". */
  function RepeatName(ws: seq<WorkoutRow>, f: WorkoutFull): (name: string)
    ensures var base := BaseName(f);
      && |base| + 5 <= |name|
      && name[..|base| + 3] == base + " (#"
      && name[|name| - 1] == ')'
      && ParseIntDecimal(name[|base| + 3..|name| - 1]) == Some(CompletedOfType(ws, f.workout.workoutTypeId) + 1)
  {
    var count := |Filter(ws, SameTypeCompleted(f.workout.workoutTypeId))| + 1;
    FilterCountsCompleted(ws, f.workout.workoutTypeId);
    NumberedName(BaseName(f), count);
    BaseName(f) + " (#" + NatToString(count) + ")"
  }

  /** `${base} (#${n})` keeps `base` and " (#" in front and ")" at the end, and
      the text between reads back as `n`. */
  lemma NumberedName(base: string, n: nat)
    ensures var name := base + " (#" + NatToString(n) + ")";
      && |base| + 5 <= |name|
      && name[..|base| + 3] == base + " (#"
      && name[|name| - 1] == ')'
      && ParseIntDecimal(name[|base| + 3..|name| - 1]) == Some(n)
  {
    var digits := NatToString(n);
    var head := base + " (#";
    var name := head + digits + ")";
    assert name == head + (digits + ")");
    assert name[..|head|] == head;
    assert name[|head|..|name| - 1] == digits;
    ParseNatText(n);
  }

  /** A set as `add(db, parent)` with no data leaves it: under `parent`,
      numbered `n`, every payload column null. */
  predicate EmptySetAt(s: WorkoutSetRow, parent: Id, n: int) {
    && s.workoutExerciseId == parent && s.setNumber == n
    && s.reps.None? && s.weightKg.None? && s.durationSeconds.None?
    && s.distanceMeters.None? && s.customFields.None?
  }

  /** `cur` is `orig` followed by empty sets under `parent` numbered `first`,
      `first + 1`, and so on. */
  predicate EmptyRun(orig: seq<WorkoutSetRow>, cur: seq<WorkoutSetRow>, parent: Id, first: int) {
    && |orig| <= |cur| && cur[..|orig|] == orig
    && forall k :: |orig| <= k < |cur| ==> EmptySetAt(cur[k], parent, first + (k - |orig|))
  }

  /** One more empty set, numbered next, extends the run. */
  lemma EmptyRunExtend(orig: seq<WorkoutSetRow>, cur: seq<WorkoutSetRow>, row: WorkoutSetRow, parent: Id, first: int)
    requires EmptyRun(orig, cur, parent, first)
    requires EmptySetAt(row, parent, first + (|cur| - |orig|))
    ensures EmptyRun(orig, cur + [row], parent, first)
  {
    var ext := cur + [row];
    assert ext[..|orig|] == cur[..|orig|];
    forall k | |orig| <= k < |ext| ensures EmptySetAt(ext[k], parent, first + (k - |orig|)) {
      if k < |cur| {
        assert ext[k] == cur[k];
      }
    }
  }

  /** The sets under `parent` are `n` empty sets numbered 1..n in table order. */
  predicate EmptySets(sets: seq<WorkoutSetRow>, parent: Id, n: nat) {
    var under := WS.SetsOf(sets, parent);
    |under| == n && forall j :: 0 <= j < n ==> EmptySetAt(under[j], parent, j + 1)
  }

  /** Row `i` copies source exercise `i` at position `i`: same exercise, same
      rest time, and as many sets, all of them empty and numbered from 1. */
  ghost predicate CopiedRows(rows: seq<WorkoutExerciseRow>, sets: seq<WorkoutSetRow>, src: WorkoutFull) {
    && |rows| <= |src.exercises|
    && forall i :: 0 <= i < |rows| ==>
         && rows[i].sortOrder == i
         && rows[i].exerciseId == src.exercises[i].link.exerciseId
         && rows[i].restSeconds == src.exercises[i].link.restSeconds
         && EmptySets(sets, rows[i].id, |src.exercises[i].sets|)
  }

  /** The workout's rows so far copy the first `k` source exercises. */
  ghost predicate CopiesFirst(links: seq<WorkoutExerciseRow>, sets: seq<WorkoutSetRow>, workoutId: Id, src: WorkoutFull, k: int) {
    var rows := WE.LinksOf(links, workoutId);
    && 0 <= k <= |src.exercises|
    && |rows| == k
    && CopiedRows(rows, sets, src)
  }

  lemma {:induction false} LinksOfAppend(links: seq<WorkoutExerciseRow>, x: WorkoutExerciseRow, workoutId: Id)
    ensures WE.LinksOf(links + [x], workoutId) == WE.LinksOf(links, workoutId) + (if x.workoutId == workoutId then [x] else [])
    decreases |links|
  {
    var tail := if x.workoutId == workoutId then [x] else [];
    if links == [] {
      assert links + [x] == [x];
      assert WE.LinksOf([x], workoutId) == tail + WE.LinksOf([], workoutId);
    } else {
      var h := if links[0].workoutId == workoutId then [links[0]] else [];
      assert (links + [x])[0] == links[0] && (links + [x])[1..] == links[1..] + [x];
      calc {
        WE.LinksOf(links + [x], workoutId);
        h + WE.LinksOf(links[1..] + [x], workoutId);
      == { LinksOfAppend(links[1..], x, workoutId); }
        h + (WE.LinksOf(links[1..], workoutId) + tail);
        (h + WE.LinksOf(links[1..], workoutId)) + tail;
        WE.LinksOf(links, workoutId) + tail;
      }
    }
  }

  /** A set appended under another parent leaves `p`'s sets as they were. */
  lemma SetsOfAddOther(sets: seq<WorkoutSetRow>, s: WorkoutSetRow, p: Id)
    requires s.workoutExerciseId != p
    ensures WS.SetsOf(sets + [s], p) == WS.SetsOf(sets, p)
  {
    WS.SetsOfAppend(sets, [s], p);
    assert WS.SetsOf([s], p) == [] + WS.SetsOf([], p);
  }

  /** A set numbered as `add` numbers it moves the next number up by one. */
  lemma NextAfterAdd(sets: seq<WorkoutSetRow>, row: WorkoutSetRow, parent: Id)
    requires row.workoutExerciseId == parent && row.setNumber == WS.NextSetNumber(sets, parent)
    ensures WS.NextSetNumber(sets + [row], parent) == WS.NextSetNumber(sets, parent) + 1
  {
    var ns := WS.SetNumbers(sets, parent);
    var m := row.setNumber;
    WS.SetNumbersAppend(sets, [row], parent);
    WS.SetNumbersSingle(row, parent);
    var ext := ns + [m];
    var r := NextAfterMax(ext, 1);
    assert ext[|ns|] == m;
  }

  /** Rows all under `p` are their own `SetsOf(_, p)`. */
  lemma {:induction false} SetsOfAllUnder(tail: seq<WorkoutSetRow>, p: Id)
    requires forall k :: 0 <= k < |tail| ==> tail[k].workoutExerciseId == p
    ensures WS.SetsOf(tail, p) == tail
    decreases |tail|
  {
    if tail != [] {
      SetsOfAllUnder(tail[1..], p);
    }
  }

  /** No set hangs from a row id the table does not have. */
  lemma NoSetsUnderFreshRow(sets: seq<WorkoutSetRow>, links: seq<WorkoutExerciseRow>, id: Id)
    requires SetsReferLinks(sets, links) && id !in Keys(links, WorkoutExerciseKey)
    ensures WS.SetsOf(sets, id) == []
  {
    var r := WS.SetsOf(sets, id);
    assert |r| > 0 ==> r[0] in sets && r[0].workoutExerciseId == id;
  }

  /** Appends `count` empty sets under `parent`, drawing ids from `uuid` from
      `next` on; stops at the first failing insert. */
  method AddEmptySets(db: Database, parent: Id, count: nat, uuid: nat -> Id, next: nat, now: Time)
    returns (r: Result<(), DbError>, after: nat)
    requires db.Valid()
    modifies db`workoutSets
    ensures db.Valid()
    ensures EmptyRun(old(db.workoutSets), db.workoutSets, parent, WS.NextSetNumber(old(db.workoutSets), parent))
    ensures old(db.workoutSets) <= db.workoutSets
    ensures r.Success? ==> |db.workoutSets| == |old(db.workoutSets)| + count
    ensures forall p :: p != parent ==> WS.SetsOf(db.workoutSets, p) == WS.SetsOf(old(db.workoutSets), p)
  {
    ghost var n0 := |db.workoutSets|;
    ghost var base := WS.NextSetNumber(db.workoutSets, parent);
    after := next;
    var j := 0;
    while j < count
      invariant 0 <= j <= count
      invariant db.Valid()
      invariant |db.workoutSets| == n0 + j
      invariant EmptyRun(old(db.workoutSets), db.workoutSets, parent, base)
      invariant WS.NextSetNumber(db.workoutSets, parent) == base + j
      invariant forall p :: p != parent ==> WS.SetsOf(db.workoutSets, p) == WS.SetsOf(old(db.workoutSets), p)
    {
      ghost var setsBefore := db.workoutSets;
      var s := WS.Add(db, parent, WS.NoInput, uuid(after), now);
      after := after + 1;
      if s.Failure? {
        return Failure(s.error), after;
      }
      NextAfterAdd(setsBefore, s.value, parent);
      EmptyRunExtend(old(db.workoutSets), setsBefore, s.value, parent, base);
      forall p | p != parent ensures WS.SetsOf(db.workoutSets, p) == WS.SetsOf(old(db.workoutSets), p) {
        SetsOfAddOther(setsBefore, s.value, p);
      }
      j := j + 1;
    }
    return Success(()), after;
  }

  /** Copies source exercise `k` into the new workout: the row, then its empty sets. */
  method CopyExercise(db: Database, workoutId: Id, src: WorkoutFull, k: nat, uuid: nat -> Id, next: nat, now: Time)
    returns (r: Result<(), DbError>, after: nat)
    requires db.Valid()
    requires k < |src.exercises|
    requires CopiesFirst(db.workoutExercises, db.workoutSets, workoutId, src, k)
    modifies db`workoutExercises, db`workoutSets
    ensures db.Valid()
    ensures old(db.workoutExercises) <= db.workoutExercises && old(db.workoutSets) <= db.workoutSets
    ensures !HasTargetReps(db.userVersion) ==>
              && r == Failure(NoSuchColumn("workout_exercises", "target_reps_min"))
              && db.workoutExercises == old(db.workoutExercises) && db.workoutSets == old(db.workoutSets)
    ensures r.Success? ==> CopiesFirst(db.workoutExercises, db.workoutSets, workoutId, src, k + 1)
  {
    var ex := src.exercises[k];
    ghost var before := db.workoutExercises;
    var added := AddExerciseToWorkout(db, workoutId, ex.link.exerciseId, Some(ex.link.restSeconds), uuid(next), now);
    if added.Failure? {
      return Failure(added.error), next + 1;
    }
    var x := added.value;
    WE.AddAfterDense(before, workoutId);
    NoSetsUnderFreshRow(db.workoutSets, before, x.id);
    ghost var setsBefore := db.workoutSets;
    r, after := AddEmptySets(db, x.id, |ex.sets|, uuid, next + 1, now);
    if r.Success? {
      NewRowSets(setsBefore, db.workoutSets, x.id, |ex.sets|);
      CopiesFirstExtend(before, setsBefore, db.workoutSets, workoutId, x, src, k);
    }
  }

  /** One more copied row under the workout, with its empty sets, extends the
      copied prefix. */
  lemma CopiesFirstExtend(links: seq<WorkoutExerciseRow>, sets: seq<WorkoutSetRow>, sets': seq<WorkoutSetRow>,
                          workoutId: Id, x: WorkoutExerciseRow, src: WorkoutFull, k: nat)
    requires k < |src.exercises| && CopiesFirst(links, sets, workoutId, src, k)
    requires x.workoutId == workoutId && x.id !in Keys(links, WorkoutExerciseKey) && x.sortOrder == k
    requires x.exerciseId == src.exercises[k].link.exerciseId && x.restSeconds == src.exercises[k].link.restSeconds
    requires forall p :: p != x.id ==> WS.SetsOf(sets', p) == WS.SetsOf(sets, p)
    requires EmptySets(sets', x.id, |src.exercises[k].sets|)
    ensures CopiesFirst(links + [x], sets', workoutId, src, k + 1)
  {
    var rows := WE.LinksOf(links, workoutId);
    LinksOfAppend(links, x, workoutId);
    FreshAmongRows(links, workoutId, x.id);
    CopiedRowsExtend(rows, sets, sets', x, src);
  }

  /** A key the table does not have is the key of none of the workout's rows. */
  lemma FreshAmongRows(links: seq<WorkoutExerciseRow>, workoutId: Id, id: Id)
    requires id !in Keys(links, WorkoutExerciseKey)
    ensures forall i :: 0 <= i < |WE.LinksOf(links, workoutId)| ==> WE.LinksOf(links, workoutId)[i].id != id
  {
    var rows := WE.LinksOf(links, workoutId);
    forall i | 0 <= i < |rows| ensures rows[i].id != id {
      assert rows[i] in links;
      assert WorkoutExerciseKey(rows[i]) in Keys(links, WorkoutExerciseKey);
    }
  }

  lemma CopiedRowsExtend(rows: seq<WorkoutExerciseRow>, sets: seq<WorkoutSetRow>, sets': seq<WorkoutSetRow>,
                         x: WorkoutExerciseRow, src: WorkoutFull)
    requires |rows| < |src.exercises| && CopiedRows(rows, sets, src)
    requires forall i :: 0 <= i < |rows| ==> rows[i].id != x.id
    requires x.sortOrder == |rows|
    requires x.exerciseId == src.exercises[|rows|].link.exerciseId
    requires x.restSeconds == src.exercises[|rows|].link.restSeconds
    requires forall p :: p != x.id ==> WS.SetsOf(sets', p) == WS.SetsOf(sets, p)
    requires EmptySets(sets', x.id, |src.exercises[|rows|].sets|)
    ensures CopiedRows(rows + [x], sets', src)
  {
    var rows' := rows + [x];
    forall i | 0 <= i < |rows'|
      ensures && rows'[i].sortOrder == i
              && rows'[i].exerciseId == src.exercises[i].link.exerciseId
              && rows'[i].restSeconds == src.exercises[i].link.restSeconds
              && EmptySets(sets', rows'[i].id, |src.exercises[i].sets|)
    {
      if i < |rows| {
        assert rows'[i] == rows[i];
        assert WS.SetsOf(sets', rows[i].id) == WS.SetsOf(sets, rows[i].id);
      }
    }
  }

  /** The sets `AddEmptySets` appends under a row that had none are exactly
      that row's sets, numbered from 1. */
  lemma NewRowSets(before: seq<WorkoutSetRow>, after: seq<WorkoutSetRow>, parent: Id, count: nat)
    requires WS.SetsOf(before, parent) == []
    requires |after| == |before| + count
    requires EmptyRun(before, after, parent, WS.NextSetNumber(before, parent))
    ensures EmptySets(after, parent, count)
  {
    var tail := after[|before|..];
    assert after == before + tail;
    assert WS.NextSetNumber(before, parent) == 1;
    forall k | 0 <= k < |tail| ensures tail[k].workoutExerciseId == parent {
      assert tail[k] == after[|before| + k];
    }
    SetsOfAllUnder(tail, parent);
    WS.SetsOfAppend(before, tail, parent);
    forall j | 0 <= j < count ensures EmptySetAt(WS.SetsOf(after, parent)[j], parent, j + 1) {
      assert tail[j] == after[|before| + j];
    }
  }

  /** `repeatWorkout`: a new workout, started like `startWorkout`, holding the source's
      exercises in order with the same rest times and as many empty sets each. The
      steps are separate statements, not one transaction: a failure part-way keeps
      what was written so far. Ids come from `uuid` in the order the copy asks for them. */
  method RepeatWorkout(db: Database, sourceId: Id, uuid: nat -> Id, now: Time) returns (r: Result<WorkoutRow, DbError>)
    requires db.Valid()
    modifies db`workouts, db`workoutExercises, db`workoutSets
    ensures db.Valid()
    ensures old(db.workoutExercises) <= db.workoutExercises && old(db.workoutSets) <= db.workoutSets
    ensures !HasTargetReps(db.userVersion) ==>
              db.workoutExercises == old(db.workoutExercises) && db.workoutSets == old(db.workoutSets)
    ensures var found := GetFullWorkout(db.workoutTypes, db.exercises, old(db.workouts), old(db.workoutExercises),
                                        old(db.workoutSets), sourceId);
      && (found == Success(None) ==> r == Failure(Thrown(SourceNotFound)))
      && (found.Success? && found.value.Some? && !NoneActive(old(db.workouts)) ==> r == Failure(Thrown(AlreadyActive)))
      && (found.Failure? || found == Success(None) || !NoneActive(old(db.workouts)) ==>
            db.workouts == old(db.workouts) && db.workoutExercises == old(db.workoutExercises)
            && db.workoutSets == old(db.workoutSets))
      && (found.Success? && found.value.Some? && NoneActive(old(db.workouts))
          && uuid(0) !in Keys(old(db.workouts), WorkoutKey) ==>
            && db.workouts == old(db.workouts) + [W.NewWorkout(found.value.value.workout.workoutTypeId,
                                                              Some(RepeatName(old(db.workouts), found.value.value)), uuid(0), now)]
            && (!HasTargetReps(db.userVersion) && |found.value.value.exercises| > 0 ==>
                  r == Failure(NoSuchColumn("workout_exercises", "target_reps_min"))))
      && (r.Success? ==>
            && found.Success? && found.value.Some?
            && r.value == W.NewWorkout(found.value.value.workout.workoutTypeId,
                                       Some(RepeatName(old(db.workouts), found.value.value)), uuid(0), now)
            && db.workouts == old(db.workouts) + [r.value]
            && CopiesFirst(db.workoutExercises, db.workoutSets, r.value.id, found.value.value, |found.value.value.exercises|))
  {
    var found := GetFullWorkout(db.workoutTypes, db.exercises, db.workouts, db.workoutExercises, db.workoutSets, sourceId);
    if found.Failure? {
      return Failure(found.error);
    }
    if found.value.None? {
      return Failure(Thrown(SourceNotFound));
    }
    r := RepeatFrom(db, found.value.value, uuid, now);
  }

  /** `repeatWorkout` once the source is found: start the copy, then copy the
      exercises and their empty sets. */
  method RepeatFrom(db: Database, src: WorkoutFull, uuid: nat -> Id, now: Time) returns (r: Result<WorkoutRow, DbError>)
    requires db.Valid()
    modifies db`workouts, db`workoutExercises, db`workoutSets
    ensures db.Valid()
    ensures old(db.workoutExercises) <= db.workoutExercises && old(db.workoutSets) <= db.workoutSets
    ensures !HasTargetReps(db.userVersion) ==>
              db.workoutExercises == old(db.workoutExercises) && db.workoutSets == old(db.workoutSets)
    ensures !NoneActive(old(db.workouts)) ==>
              && r == Failure(Thrown(AlreadyActive))
              && db.workouts == old(db.workouts) && db.workoutExercises == old(db.workoutExercises)
              && db.workoutSets == old(db.workoutSets)
    ensures NoneActive(old(db.workouts)) && uuid(0) !in Keys(old(db.workouts), WorkoutKey)
            && src.workout.workoutTypeId in Keys(db.workoutTypes, TypeKey) ==>
              && db.workouts == old(db.workouts) + [W.NewWorkout(src.workout.workoutTypeId, Some(RepeatName(old(db.workouts), src)), uuid(0), now)]
              && (!HasTargetReps(db.userVersion) && |src.exercises| > 0 ==>
                    r == Failure(NoSuchColumn("workout_exercises", "target_reps_min")))
    ensures r.Success? ==>
              && r.value == W.NewWorkout(src.workout.workoutTypeId, Some(RepeatName(old(db.workouts), src)), uuid(0), now)
              && db.workouts == old(db.workouts) + [r.value]
              && CopiesFirst(db.workoutExercises, db.workoutSets, r.value.id, src, |src.exercises|)
  {
    var name := RepeatName(db.workouts, src);
    var started := StartWorkout(db, src.workout.workoutTypeId, Some(name), uuid(0), now);
    if started.Failure? {
      return Failure(started.error);
    }
    var w := started.value;
    FreshWorkoutHasNoRows(db.workoutExercises, old(db.workouts), w.id);
    var copied := CopyExercises(db, w.id, src, uuid, now);
    if copied.Failure? {
      return Failure(copied.error);
    }
    return Success(w);
  }

  /** The loop of `repeatWorkout`: the source's exercises copied one by one under
      `workoutId`, stopping at the first failure; ids are drawn from `uuid` from 1 on. */
  method CopyExercises(db: Database, workoutId: Id, src: WorkoutFull, uuid: nat -> Id, now: Time)
    returns (r: Result<(), DbError>)
    requires db.Valid()
    requires CopiesFirst(db.workoutExercises, db.workoutSets, workoutId, src, 0)
    modifies db`workoutExercises, db`workoutSets
    ensures db.Valid()
    ensures old(db.workoutExercises) <= db.workoutExercises && old(db.workoutSets) <= db.workoutSets
    ensures !HasTargetReps(db.userVersion) ==>
              db.workoutExercises == old(db.workoutExercises) && db.workoutSets == old(db.workoutSets)
    ensures !HasTargetReps(db.userVersion) && |src.exercises| > 0 ==>
              r == Failure(NoSuchColumn("workout_exercises", "target_reps_min"))
    ensures r.Success? ==> CopiesFirst(db.workoutExercises, db.workoutSets, workoutId, src, |src.exercises|)
  {
    var next: nat := 1;
    var k := 0;
    while k < |src.exercises|
      invariant db.Valid()
      invariant CopiesFirst(db.workoutExercises, db.workoutSets, workoutId, src, k)
      invariant old(db.workoutExercises) <= db.workoutExercises && old(db.workoutSets) <= db.workoutSets
      invariant !HasTargetReps(db.userVersion) ==>
                  && k == 0
                  && db.workoutExercises == old(db.workoutExercises) && db.workoutSets == old(db.workoutSets)
    {
      var step;
      step, next := CopyExercise(db, workoutId, src, k, uuid, next, now);
      if step.Failure? {
        return Failure(step.error);
      }
      k := k + 1;
    }
    return Success(());
  }

  /** A workout id the table did not have has no exercise rows. */
  lemma FreshWorkoutHasNoRows(links: seq<WorkoutExerciseRow>, ws: seq<WorkoutRow>, id: Id)
    requires LinksReferWorkouts(links, ws) && id !in Keys(ws, WorkoutKey)
    ensures WE.LinksOf(links, id) == []
  {
    var r := WE.LinksOf(links, id);
    assert |r| > 0 ==> r[0] in links && r[0].workoutId == id;
  }

  /** The base name is used verbatim: repeating a copy nests a second suffix
      rather than replacing the first. */
  lemma RepeatNameNests(ws: seq<WorkoutRow>, f: WorkoutFull)
    requires f.workout.name == Some("Push Day (#2)")
    ensures var name := RepeatName(ws, f); |name| > 16 && name[..16] == "Push Day (#2)" + " (#"
  {
    assert BaseName(f) == "Push Day (#2)";
  }
}
