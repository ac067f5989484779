/** The `workout_exercises` table: the exercises of a workout, each with its
    position (`sort_order`), rest time and target rep range. Appending gives the
    next position; `reorder` rewrites positions from an ordered list of ids. */
module WorkoutExercises {
  import opened Wrappers
  import opened Store
  import opened Query

  // ---------------------------------------------------------------------------
  // Rows of one workout.

  /** `WHERE workout_id = workoutId`, in table order. */
  function LinksOf(links: seq<WorkoutExerciseRow>, workoutId: Id): (r: seq<WorkoutExerciseRow>)
    ensures forall l :: l in r <==> l in links && l.workoutId == workoutId
  {
    if links == [] then []
    else
      assert links == [links[0]] + links[1..];
      (if links[0].workoutId == workoutId then [links[0]] else []) + LinksOf(links[1..], workoutId)
  }

  function Orders(rows: seq<WorkoutExerciseRow>): (r: seq<int>)
    ensures |r| == |rows| && forall i :: 0 <= i < |rows| ==> r[i] == rows[i].sortOrder
  {
    seq(|rows|, i requires 0 <= i < |rows| => rows[i].sortOrder)
  }

  /** The `sort_order` values of one workout's rows. */
  function SortOrders(links: seq<WorkoutExerciseRow>, workoutId: Id): seq<int> {
    Orders(LinksOf(links, workoutId))
  }

  // ---------------------------------------------------------------------------
  // addToWorkout

  /** `COALESCE((SELECT MAX(sort_order) + 1 ... WHERE workout_id = ?), 0)`. */
  function NextSortOrder(links: seq<WorkoutExerciseRow>, workoutId: Id): int {
    NextAfterMax(SortOrders(links, workoutId), 0)
  }

  /** The row `addToWorkout` inserts: the rest time verbatim, omitted targets null. */
  function NewLink(
    links: seq<WorkoutExerciseRow>, workoutId: Id, exerciseId: Id, restSeconds: int,
    targetRepsMin: Option<int>, targetRepsMax: Option<int>, id: Id, now: Time): WorkoutExerciseRow
  {
    WorkoutExerciseRow(id, workoutId, exerciseId, NextSortOrder(links, workoutId), restSeconds,
                       targetRepsMin, targetRepsMax, None, now)
  }

  /** `addToWorkout`. The INSERT names `target_reps_min`, so it cannot even be
      prepared before step v2→v3 has added that column; otherwise it fails on a
      taken id or a reference to a missing workout or exercise. */
  method AddToWorkout(
    db: Database, workoutId: Id, exerciseId: Id, restSeconds: int,
    targetRepsMin: Option<int>, targetRepsMax: Option<int>, id: Id, now: Time)
    returns (r: Result<WorkoutExerciseRow, DbError>)
    requires db.Valid()
    modifies db`workoutExercises
    ensures db.Valid()
    ensures r.Success? <==>
              && HasTargetReps(db.userVersion)
              && id !in Keys(old(db.workoutExercises), WorkoutExerciseKey)
              && workoutId in Keys(db.workouts, WorkoutKey)
              && exerciseId in Keys(db.exercises, ExerciseKey)
    ensures !HasTargetReps(db.userVersion) ==> r == Failure(NoSuchColumn("workout_exercises", "target_reps_min"))
    ensures r.Failure? ==> db.workoutExercises == old(db.workoutExercises)
    ensures r.Success? ==>
              && r.value == NewLink(old(db.workoutExercises), workoutId, exerciseId, restSeconds,
                                    targetRepsMin, targetRepsMax, id, now)
              && db.workoutExercises == old(db.workoutExercises) + [r.value]
  {
    if !HasTargetReps(db.userVersion) {
      return Failure(NoSuchColumn("workout_exercises", "target_reps_min"));
    }
    if id in Keys(db.workoutExercises, WorkoutExerciseKey) {
      return Failure(PrimaryKey("workout_exercises"));
    }
    if workoutId !in Keys(db.workouts, WorkoutKey) || exerciseId !in Keys(db.exercises, ExerciseKey) {
      return Failure(ForeignKey);
    }
    var row := NewLink(db.workoutExercises, workoutId, exerciseId, restSeconds,
                       targetRepsMin, targetRepsMax, id, now);
    UniqueAppend(db.workoutExercises, row, WorkoutExerciseKey);
    db.workoutExercises := db.workoutExercises + [row];
    assert forall s :: s in db.workoutSets ==> s.workoutExerciseId in Keys(old(db.workoutExercises), WorkoutExerciseKey);
    KeysAppend(old(db.workoutExercises), row, WorkoutExerciseKey);
    return Success(row);
  }

  /** The new row goes after every row already in the workout, and to position
      0 when it is the first. */
  lemma AddPosition(
    links: seq<WorkoutExerciseRow>, workoutId: Id, exerciseId: Id, restSeconds: int,
    targetRepsMin: Option<int>, targetRepsMax: Option<int>, id: Id, now: Time)
    ensures var n := NewLink(links, workoutId, exerciseId, restSeconds, targetRepsMin, targetRepsMax, id, now).sortOrder;
      && (forall l :: l in links && l.workoutId == workoutId ==> l.sortOrder < n)
      && (LinksOf(links, workoutId) == [] ==> n == 0)
  {
    var rows := LinksOf(links, workoutId);
    var os := SortOrders(links, workoutId);
    forall l | l in links && l.workoutId == workoutId ensures l.sortOrder < NextSortOrder(links, workoutId) {
      assert l in rows;
      var k :| 0 <= k < |rows| && rows[k] == l;
      assert os[k] == l.sortOrder;
    }
  }

  /** When a workout's rows sit at positions 0, 1, ..., n-1 in table order,
      the next row goes to position n. */
  lemma {:induction false} AddAfterDense(links: seq<WorkoutExerciseRow>, workoutId: Id)
    requires forall i :: 0 <= i < |LinksOf(links, workoutId)| ==> LinksOf(links, workoutId)[i].sortOrder == i
    ensures NextSortOrder(links, workoutId) == |LinksOf(links, workoutId)|
  {
    var os := SortOrders(links, workoutId);
    var n := NextSortOrder(links, workoutId);
    if os != [] {
      var j :| 0 <= j < |os| && os[j] == n - 1;
      assert os[|os| - 1] < n;
    }
  }

  // ---------------------------------------------------------------------------
  // getByWorkout

  /** A row of `getByWorkout`: the row with its exercise's name and category, and
      the empty sets list `mapFullRow` attaches. */
  datatype WorkoutExerciseFull = WorkoutExerciseFull(
    link: WorkoutExerciseRow, exerciseName: string, exerciseCategory: string, sets: seq<WorkoutSetRow>)

  /** `JOIN exercises e ON e.id = we.exercise_id WHERE we.workout_id = ?`. */
  function JoinsWorkout(exercises: seq<ExerciseRow>, workoutId: Id): WorkoutExerciseRow -> bool {
    (l: WorkoutExerciseRow) => l.workoutId == workoutId && l.exerciseId in Keys(exercises, ExerciseKey)
  }

  predicate SortOrderLe(a: WorkoutExerciseRow, b: WorkoutExerciseRow) {
    a.sortOrder <= b.sortOrder
  }

  lemma SortOrderLeTotal()
    ensures TotalPreorder(SortOrderLe)
  {
  }

  /** The joined rows, ORDER BY sort_order. */
  function ByWorkoutRows(links: seq<WorkoutExerciseRow>, exercises: seq<ExerciseRow>, workoutId: Id): (r: seq<WorkoutExerciseRow>)
    ensures forall l :: l in r <==> l in links && l.workoutId == workoutId && l.exerciseId in Keys(exercises, ExerciseKey)
    ensures multiset(r) == multiset(Filter(links, JoinsWorkout(exercises, workoutId)))
    ensures forall i, j :: 0 <= i < j < |r| ==> r[i].sortOrder <= r[j].sortOrder
  {
    SortOrderLeTotal();
    var rows := Filter(links, JoinsWorkout(exercises, workoutId));
    SortByMembers(rows, SortOrderLe);
    SortBy(rows, SortOrderLe)
  }

  /** `mapFullRow`. */
  function MapFull(l: WorkoutExerciseRow, exercises: seq<ExerciseRow>): WorkoutExerciseFull
    requires l.exerciseId in Keys(exercises, ExerciseKey)
  {
    var e := Lookup(exercises, ExerciseKey, l.exerciseId).value;
    WorkoutExerciseFull(l, e.name, e.category, [])
  }

  function MapFullRows(rows: seq<WorkoutExerciseRow>, exercises: seq<ExerciseRow>): (r: seq<WorkoutExerciseFull>)
    requires forall l :: l in rows ==> l.exerciseId in Keys(exercises, ExerciseKey)
    ensures |r| == |rows|
    ensures forall i :: 0 <= i < |rows| ==>
              && r[i].link == rows[i] && r[i].sets == []
              && Lookup(exercises, ExerciseKey, rows[i].exerciseId).Some?
              && r[i].exerciseName == Lookup(exercises, ExerciseKey, rows[i].exerciseId).value.name
              && r[i].exerciseCategory == Lookup(exercises, ExerciseKey, rows[i].exerciseId).value.category
  {
    seq(|rows|, i requires 0 <= i < |rows| => assert rows[i] in rows; MapFull(rows[i], exercises))
  }

  /** `getByWorkout`: the workout's rows in position order, each with its exercise's
      name and category and no sets yet. */
  function ByWorkout(links: seq<WorkoutExerciseRow>, exercises: seq<ExerciseRow>, workoutId: Id): (r: seq<WorkoutExerciseFull>)
    ensures |r| == |ByWorkoutRows(links, exercises, workoutId)|
    ensures forall i :: 0 <= i < |r| ==>
              && r[i].link == ByWorkoutRows(links, exercises, workoutId)[i]
              && r[i].link in links && r[i].link.workoutId == workoutId && r[i].sets == []
              && Lookup(exercises, ExerciseKey, r[i].link.exerciseId).Some?
              && r[i].exerciseName == Lookup(exercises, ExerciseKey, r[i].link.exerciseId).value.name
              && r[i].exerciseCategory == Lookup(exercises, ExerciseKey, r[i].link.exerciseId).value.category
    ensures forall i, j :: 0 <= i < j < |r| ==> r[i].link.sortOrder <= r[j].link.sortOrder
  {
    MapFullRows(ByWorkoutRows(links, exercises, workoutId), exercises)
  }

  // ---------------------------------------------------------------------------
  // removeFromWorkout

  function NotUnder(id: Id): WorkoutSetRow -> bool {
    (s: WorkoutSetRow) => s.workoutExerciseId != id
  }

  function NotId(id: Id): WorkoutExerciseRow -> bool {
    (l: WorkoutExerciseRow) => l.id != id
  }

  /** `removeFromWorkout`: the row's sets, then the row, in one transaction. Neither
      DELETE can fail: the sets go before the row they reference. */
  method RemoveFromWorkout(db: Database, id: Id)
    requires db.Valid()
    modifies db`workoutSets, db`workoutExercises
    ensures db.Valid()
    ensures db.workoutSets == Filter(old(db.workoutSets), NotUnder(id))
    ensures db.workoutExercises == Filter(old(db.workoutExercises), NotId(id))
  {
    db.workoutSets := Filter(db.workoutSets, NotUnder(id));
    db.workoutExercises := Filter(db.workoutExercises, NotId(id));
    UniqueFilter(old(db.workoutSets), NotUnder(id), SetKey);
    UniqueFilter(old(db.workoutExercises), NotId(id), WorkoutExerciseKey);
    forall s | s in db.workoutSets ensures s.workoutExerciseId in Keys(db.workoutExercises, WorkoutExerciseKey) {
      assert s in old(db.workoutSets);
      var l :| l in old(db.workoutExercises) && l.id == s.workoutExerciseId;
      assert l in db.workoutExercises;
    }
  }

  /** After `removeFromWorkout` no set hangs from the row, no row has its id, and
      every other row and every set of another row is kept. */
  lemma RemoveCascade(sets: seq<WorkoutSetRow>, links: seq<WorkoutExerciseRow>, id: Id)
    ensures forall s :: s in Filter(sets, NotUnder(id)) <==> s in sets && s.workoutExerciseId != id
    ensures forall l :: l in Filter(links, NotId(id)) <==> l in links && l.id != id
    ensures id !in Keys(Filter(links, NotId(id)), WorkoutExerciseKey)
  {
  }

  // ---------------------------------------------------------------------------
  // updateRestSeconds and updateTargetReps

  /** `UPDATE workout_exercises SET rest_seconds = ? WHERE id = ?`. */
  function WithRest(links: seq<WorkoutExerciseRow>, id: Id, restSeconds: int): (r: seq<WorkoutExerciseRow>)
    ensures |r| == |links|
    ensures forall i :: 0 <= i < |links| ==>
              r[i] == if links[i].id == id then links[i].(restSeconds := restSeconds) else links[i]
  {
    seq(|links|, i requires 0 <= i < |links| =>
      if links[i].id == id then links[i].(restSeconds := restSeconds) else links[i])
  }

  /** `UPDATE workout_exercises SET target_reps_min = ?, target_reps_max = ? WHERE id = ?`. */
  function WithTargets(links: seq<WorkoutExerciseRow>, id: Id, targetRepsMin: Option<int>, targetRepsMax: Option<int>): (r: seq<WorkoutExerciseRow>)
    ensures |r| == |links|
    ensures forall i :: 0 <= i < |links| ==>
              r[i] == if links[i].id == id then links[i].(targetRepsMin := targetRepsMin, targetRepsMax := targetRepsMax)
                      else links[i]
  {
    seq(|links|, i requires 0 <= i < |links| =>
      if links[i].id == id then links[i].(targetRepsMin := targetRepsMin, targetRepsMax := targetRepsMax)
      else links[i])
  }

  /** Rewriting a column other than `id` keeps every constraint. */
  lemma SameIdsKeepValid(a: seq<WorkoutExerciseRow>, b: seq<WorkoutExerciseRow>,
                         ws: seq<WorkoutRow>, exs: seq<ExerciseRow>, sets: seq<WorkoutSetRow>)
    requires |a| == |b|
    requires forall i :: 0 <= i < |a| ==>
               a[i].id == b[i].id && a[i].workoutId == b[i].workoutId && a[i].exerciseId == b[i].exerciseId
    requires Unique(a, WorkoutExerciseKey)
    requires LinksReferWorkouts(a, ws) && LinksReferExercises(a, exs) && SetsReferLinks(sets, a)
    ensures Unique(b, WorkoutExerciseKey)
    ensures LinksReferWorkouts(b, ws) && LinksReferExercises(b, exs) && SetsReferLinks(sets, b)
  {
    forall l | l in b ensures l.workoutId in Keys(ws, WorkoutKey) && l.exerciseId in Keys(exs, ExerciseKey) {
      var i :| 0 <= i < |b| && b[i] == l;
      assert a[i] in a;
    }
    forall s | s in sets ensures s.workoutExerciseId in Keys(b, WorkoutExerciseKey) {
      var l :| l in a && l.id == s.workoutExerciseId;
      var i :| 0 <= i < |a| && a[i] == l;
      assert b[i] in b;
    }
  }

  /** `updateRestSeconds`: only `rest_seconds` of the row with that id changes; an
      unknown id changes nothing. */
  method UpdateRestSeconds(db: Database, id: Id, restSeconds: int)
    requires db.Valid()
    modifies db`workoutExercises
    ensures db.Valid()
    ensures db.workoutExercises == WithRest(old(db.workoutExercises), id, restSeconds)
  {
    SameIdsKeepValid(db.workoutExercises, WithRest(db.workoutExercises, id, restSeconds),
                     db.workouts, db.exercises, db.workoutSets);
    db.workoutExercises := WithRest(db.workoutExercises, id, restSeconds);
  }

  /** `updateTargetReps`: min and max are written together; before step v2→v3 the
      columns do not exist and the statement fails. */
  method UpdateTargetReps(db: Database, id: Id, targetRepsMin: Option<int>, targetRepsMax: Option<int>)
    returns (r: Result<(), DbError>)
    requires db.Valid()
    modifies db`workoutExercises
    ensures db.Valid()
    ensures r.Success? <==> HasTargetReps(db.userVersion)
    ensures r.Failure? ==>
              r.error == NoSuchColumn("workout_exercises", "target_reps_min") &&
              db.workoutExercises == old(db.workoutExercises)
    ensures r.Success? ==> db.workoutExercises == WithTargets(old(db.workoutExercises), id, targetRepsMin, targetRepsMax)
  {
    if !HasTargetReps(db.userVersion) {
      return Failure(NoSuchColumn("workout_exercises", "target_reps_min"));
    }
    SameIdsKeepValid(db.workoutExercises, WithTargets(db.workoutExercises, id, targetRepsMin, targetRepsMax),
                     db.workouts, db.exercises, db.workoutSets);
    db.workoutExercises := WithTargets(db.workoutExercises, id, targetRepsMin, targetRepsMax);
    return Success(());
  }

  // ---------------------------------------------------------------------------
  // reorder

  /** One UPDATE of the loop: `SET sort_order = pos WHERE id = ? AND workout_id = ?`. */
  function WithPosition(links: seq<WorkoutExerciseRow>, id: Id, workoutId: Id, pos: int): (r: seq<WorkoutExerciseRow>)
    ensures |r| == |links|
    ensures forall i :: 0 <= i < |links| ==>
              r[i] == if links[i].id == id && links[i].workoutId == workoutId then links[i].(sortOrder := pos) else links[i]
  {
    seq(|links|, i requires 0 <= i < |links| =>
      if links[i].id == id && links[i].workoutId == workoutId then links[i].(sortOrder := pos) else links[i])
  }

  /** The table after the UPDATEs for `orderedIds[0..|ids|)`, in loop order. */
  function Reordered(links: seq<WorkoutExerciseRow>, workoutId: Id, ids: seq<Id>): (r: seq<WorkoutExerciseRow>)
    ensures |r| == |links|
    decreases |ids|
  {
    if ids == [] then links
    else WithPosition(Reordered(links, workoutId, ids[..|ids| - 1]), ids[|ids| - 1], workoutId, |ids| - 1)
  }

  /** The last position of `id` in `ids`: the one whose UPDATE is applied last. */
  function LastIndex(ids: seq<Id>, id: Id): (r: Option<nat>)
    ensures r.None? <==> id !in ids
    ensures r.Some? ==> r.value < |ids| && ids[r.value] == id &&
                        forall k :: r.value < k < |ids| ==> ids[k] != id
    decreases |ids|
  {
    if ids == [] then None
    else if ids[|ids| - 1] == id then Some(|ids| - 1)
    else
      assert forall x :: x in ids <==> x in ids[..|ids| - 1] || x == ids[|ids| - 1] by {
        assert ids == ids[..|ids| - 1] + [ids[|ids| - 1]];
      }
      LastIndex(ids[..|ids| - 1], id)
  }

  /** `reorder`: every UPDATE in one transaction, which cannot fail. */
  method Reorder(db: Database, workoutId: Id, orderedIds: seq<Id>)
    requires db.Valid()
    modifies db`workoutExercises
    ensures db.Valid()
    ensures db.workoutExercises == Reordered(old(db.workoutExercises), workoutId, orderedIds)
  {
    var i := 0;
    while i < |orderedIds|
      invariant 0 <= i <= |orderedIds|
      invariant db.Valid()
      invariant db.workoutExercises == Reordered(old(db.workoutExercises), workoutId, orderedIds[..i])
    {
      assert orderedIds[..i + 1][..i] == orderedIds[..i];
      var next := WithPosition(db.workoutExercises, orderedIds[i], workoutId, i);
      SameIdsKeepValid(db.workoutExercises, next, db.workouts, db.exercises, db.workoutSets);
      db.workoutExercises := next;
      i := i + 1;
    }
    assert orderedIds[..i] == orderedIds;
  }

  /** What `reorder` does to each row: a row of the workout whose id is listed gets
      the last index at which it is listed; every other row is untouched. Foreign
      and unknown ids change nothing. */
  lemma {:induction false} ReorderedAt(links: seq<WorkoutExerciseRow>, workoutId: Id, ids: seq<Id>, i: int)
    requires 0 <= i < |links|
    ensures var r := Reordered(links, workoutId, ids);
      r[i] == if links[i].workoutId == workoutId && links[i].id in ids
              then links[i].(sortOrder := LastIndex(ids, links[i].id).value)
              else links[i]
    decreases |ids|
  {
    if ids != [] {
      var init := ids[..|ids| - 1];
      ReorderedAt(links, workoutId, init, i);
      assert ids == init + [ids[|ids| - 1]];
    }
  }

  /** Repeating `reorder` with the same list changes nothing. */
  lemma ReorderIdempotent(links: seq<WorkoutExerciseRow>, workoutId: Id, ids: seq<Id>)
    ensures Reordered(Reordered(links, workoutId, ids), workoutId, ids) == Reordered(links, workoutId, ids)
  {
    var once := Reordered(links, workoutId, ids);
    var twice := Reordered(once, workoutId, ids);
    forall i | 0 <= i < |links| ensures twice[i] == once[i] {
      ReorderedAt(links, workoutId, ids, i);
      ReorderedAt(once, workoutId, ids, i);
    }
  }

  /** `orderedIds` lists every row of the workout exactly once and nothing else. */
  ghost predicate ListsWorkout(links: seq<WorkoutExerciseRow>, workoutId: Id, ids: seq<Id>) {
    && (forall i, j :: 0 <= i < j < |ids| ==> ids[i] != ids[j])
    && (forall x :: x in ids <==> x in Keys(LinksOf(links, workoutId), WorkoutExerciseKey))
  }

  /** After a full `reorder` the row listed at index k has position k, so the
      workout's positions are exactly 0..n-1 in list order. */
  lemma FullReorder(links: seq<WorkoutExerciseRow>, workoutId: Id, ids: seq<Id>)
    requires ListsWorkout(links, workoutId, ids)
    ensures var r := Reordered(links, workoutId, ids);
      forall i :: 0 <= i < |links| && links[i].workoutId == workoutId ==>
        0 <= r[i].sortOrder < |ids| && ids[r[i].sortOrder] == links[i].id
  {
    var r := Reordered(links, workoutId, ids);
    forall i | 0 <= i < |links| && links[i].workoutId == workoutId
      ensures 0 <= r[i].sortOrder < |ids| && ids[r[i].sortOrder] == links[i].id
    {
      ReorderedAt(links, workoutId, ids, i);
      assert links[i] in LinksOf(links, workoutId);
      assert links[i].id in Keys(LinksOf(links, workoutId), WorkoutExerciseKey);
    }
  }

  /** With the workout's rows keyed uniquely, a full `reorder` gives its rows
      pairwise different positions, each below the number of rows. */
  lemma FullReorderDistinct(links: seq<WorkoutExerciseRow>, workoutId: Id, ids: seq<Id>)
    requires Unique(links, WorkoutExerciseKey)
    requires ListsWorkout(links, workoutId, ids)
    ensures var r := Reordered(links, workoutId, ids);
      forall i, j :: 0 <= i < j < |links| && links[i].workoutId == workoutId && links[j].workoutId == workoutId ==>
        r[i].sortOrder != r[j].sortOrder
  {
    FullReorder(links, workoutId, ids);
  }
}
