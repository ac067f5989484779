/** The `workouts` table and its lifecycle: a workout is created in progress, is
    completed, discarded or reopened by single UPDATEs, and is deleted together
    with its exercise rows and sets. The partial unique index on `status` keeps
    at most one workout in progress. */
module Workouts {
  import opened Wrappers
  import opened Store
  import opened Query
  import opened Text

  // ---------------------------------------------------------------------------
  // create

  /** The row `create` inserts. */
  function NewWorkout(workoutTypeId: Id, name: Option<string>, id: Id, now: Time): WorkoutRow {
    WorkoutRow(id, workoutTypeId, name, InProgress, now, None, None, now)
  }

  /** `create`: the INSERT fails on a taken id, while another workout is in
      progress (the partial unique index), or for an unknown workout type. */
  method Create(db: Database, workoutTypeId: Id, name: Option<string>, id: Id, now: Time)
    returns (r: Result<WorkoutRow, DbError>)
    requires db.Valid()
    modifies db`workouts
    ensures db.Valid()
    ensures r.Success? <==>
              && id !in Keys(old(db.workouts), WorkoutKey)
              && NoneActive(old(db.workouts))
              && workoutTypeId in Keys(db.workoutTypes, TypeKey)
    ensures id !in Keys(old(db.workouts), WorkoutKey) && !NoneActive(old(db.workouts)) ==> r == Failure(SingleActive)
    ensures r.Failure? ==> db.workouts == old(db.workouts)
    ensures r.Success? ==>
              && r.value == NewWorkout(workoutTypeId, name, id, now)
              && db.workouts == old(db.workouts) + [r.value]
  {
    if id in Keys(db.workouts, WorkoutKey) {
      return Failure(PrimaryKey("workouts"));
    }
    if !NoneActive(db.workouts) {
      return Failure(SingleActive);
    }
    if workoutTypeId !in Keys(db.workoutTypes, TypeKey) {
      return Failure(ForeignKey);
    }
    var row := NewWorkout(workoutTypeId, name, id, now);
    UniqueAppend(db.workouts, row, WorkoutKey);
    KeysAppend(db.workouts, row, WorkoutKey);
    db.workouts := db.workouts + [row];
    return Success(row);
  }

  // ---------------------------------------------------------------------------
  // getActive and getById

  /** `SELECT * FROM workouts WHERE status = 'in_progress' LIMIT 1`. */
  function GetActive(ws: seq<WorkoutRow>): (r: Option<WorkoutRow>)
    ensures r.None? <==> NoneActive(ws)
    ensures r.Some? ==> r.value in ws && r.value.status == InProgress
  {
    if ws == [] then None
    else if ws[0].status == InProgress then Some(ws[0])
    else
      var r := GetActive(ws[1..]);
      assert r.Some? ==> r.value in ws;
      assert NoneActive(ws[1..]) ==> NoneActive(ws) by {
        if NoneActive(ws[1..]) {
          forall i | 0 <= i < |ws| ensures ws[i].status != InProgress {
            if i > 0 {
              assert ws[i] == ws[1..][i - 1];
            }
          }
        }
      }
      r
  }

  /** With at most one workout in progress, `getActive` finds that one. */
  lemma GetActiveUnique(ws: seq<WorkoutRow>, i: int)
    requires AtMostOneActive(ws) && 0 <= i < |ws| && ws[i].status == InProgress
    ensures GetActive(ws) == Some(ws[i])
  {
    var r := GetActive(ws).value;
    var j :| 0 <= j < |ws| && ws[j] == r;
    assert !(j < i) && !(i < j);
  }

  /** `getById`. */
  function GetById(ws: seq<WorkoutRow>, id: Id): (r: Option<WorkoutRow>)
    ensures r.None? <==> id !in Keys(ws, WorkoutKey)
    ensures r.Some? ==> r.value in ws && r.value.id == id
  {
    Lookup(ws, WorkoutKey, id)
  }

  // ---------------------------------------------------------------------------
  // complete, reopen, discard

  /** The column changes of the three lifecycle UPDATEs. */
  datatype Change = MarkCompleted(now: Time) | MarkReopened | MarkDiscarded

  function Apply(w: WorkoutRow, c: Change): WorkoutRow {
    match c
    case MarkCompleted(now) => w.(status := Completed, completedAt := Some(now))
    case MarkReopened => w.(status := InProgress, completedAt := None)
    case MarkDiscarded => w.(status := Discarded)
  }

  /** `UPDATE workouts SET ... WHERE id = ?`. */
  function WithChange(ws: seq<WorkoutRow>, id: Id, c: Change): (r: seq<WorkoutRow>)
    ensures |r| == |ws|
    ensures forall i :: 0 <= i < |ws| ==>
              && r[i].id == ws[i].id && r[i].workoutTypeId == ws[i].workoutTypeId
              && r[i].name == ws[i].name && r[i].startedAt == ws[i].startedAt
              && r[i].notes == ws[i].notes && r[i].createdAt == ws[i].createdAt
    ensures forall i :: 0 <= i < |ws| && ws[i].id != id ==> r[i] == ws[i]
    ensures forall i :: 0 <= i < |ws| && ws[i].id == id ==>
              match c
              case MarkCompleted(now) => r[i].status == Completed && r[i].completedAt == Some(now)
              case MarkReopened => r[i].status == InProgress && r[i].completedAt.None?
              case MarkDiscarded => r[i].status == Discarded && r[i].completedAt == ws[i].completedAt
  {
    seq(|ws|, i requires 0 <= i < |ws| => if ws[i].id == id then Apply(ws[i], c) else ws[i])
  }

  /** An UPDATE whose id matches no row changes nothing. */
  lemma WithChangeAbsent(ws: seq<WorkoutRow>, id: Id, c: Change)
    requires id !in Keys(ws, WorkoutKey)
    ensures WithChange(ws, id, c) == ws
  {
    forall i | 0 <= i < |ws| ensures ws[i].id != id {
      assert WorkoutKey(ws[i]) in Keys(ws, WorkoutKey);
    }
  }

  /** The lifecycle UPDATEs touch neither keys nor references. */
  lemma WithChangeKeepsKeys(ws: seq<WorkoutRow>, id: Id, c: Change, types: seq<WorkoutTypeRow>, links: seq<WorkoutExerciseRow>)
    requires Unique(ws, WorkoutKey) && WorkoutsReferTypes(ws, types) && LinksReferWorkouts(links, ws)
    ensures Unique(WithChange(ws, id, c), WorkoutKey)
    ensures WorkoutsReferTypes(WithChange(ws, id, c), types)
    ensures LinksReferWorkouts(links, WithChange(ws, id, c))
  {
    var r := WithChange(ws, id, c);
    forall w | w in r ensures w.workoutTypeId in Keys(types, TypeKey) {
      var i :| 0 <= i < |r| && r[i] == w;
      assert ws[i] in ws;
    }
    forall l | l in links ensures l.workoutId in Keys(r, WorkoutKey) {
      var w :| w in ws && w.id == l.workoutId;
      var i :| 0 <= i < |ws| && ws[i] == w;
      assert r[i] in r;
    }
  }

  /** Completing or discarding never adds a workout in progress. */
  lemma LeavingProgressKeepsSingleActive(ws: seq<WorkoutRow>, id: Id, c: Change)
    requires !c.MarkReopened?
    requires AtMostOneActive(ws)
    ensures AtMostOneActive(WithChange(ws, id, c))
  {
  }

  /** Some workout other than `id` is in progress. */
  predicate OtherActive(ws: seq<WorkoutRow>, id: Id) {
    exists i :: 0 <= i < |ws| && ws[i].status == InProgress && ws[i].id != id
  }

  /** Reopening when no other workout is in progress keeps at most one in progress. */
  lemma ReopenKeepsSingleActive(ws: seq<WorkoutRow>, id: Id)
    requires Unique(ws, WorkoutKey) && !OtherActive(ws, id)
    ensures AtMostOneActive(WithChange(ws, id, MarkReopened))
  {
    var r := WithChange(ws, id, MarkReopened);
    forall i, j | 0 <= i < j < |r| && r[i].status == InProgress ensures r[j].status != InProgress {
      assert ws[i].id != ws[j].id;
    }
  }

  /** `complete`: status completed and `completed_at` now, whatever the status was. */
  method Complete(db: Database, id: Id, now: Time)
    requires db.Valid()
    modifies db`workouts
    ensures db.Valid()
    ensures db.workouts == WithChange(old(db.workouts), id, MarkCompleted(now))
  {
    WithChangeKeepsKeys(db.workouts, id, MarkCompleted(now), db.workoutTypes, db.workoutExercises);
    LeavingProgressKeepsSingleActive(db.workouts, id, MarkCompleted(now));
    db.workouts := WithChange(db.workouts, id, MarkCompleted(now));
  }

  /** `reopen`: status in progress and `completed_at` cleared. Only the partial
      unique index stands in the way: the UPDATE fails while another workout is in
      progress. */
  method Reopen(db: Database, id: Id) returns (r: Result<(), DbError>)
    requires db.Valid()
    modifies db`workouts
    ensures db.Valid()
    ensures r.Success? <==> !(id in Keys(old(db.workouts), WorkoutKey) && OtherActive(old(db.workouts), id))
    ensures r.Failure? ==> r.error == SingleActive && db.workouts == old(db.workouts)
    ensures r.Success? ==> db.workouts == WithChange(old(db.workouts), id, MarkReopened)
  {
    if id in Keys(db.workouts, WorkoutKey) && OtherActive(db.workouts, id) {
      return Failure(SingleActive);
    }
    WithChangeKeepsKeys(db.workouts, id, MarkReopened, db.workoutTypes, db.workoutExercises);
    if id in Keys(db.workouts, WorkoutKey) {
      ReopenKeepsSingleActive(db.workouts, id);
    } else {
      WithChangeAbsent(db.workouts, id, MarkReopened);
    }
    db.workouts := WithChange(db.workouts, id, MarkReopened);
    return Success(());
  }

  /** `discard`: status discarded; `completed_at` keeps its value. */
  method Discard(db: Database, id: Id)
    requires db.Valid()
    modifies db`workouts
    ensures db.Valid()
    ensures db.workouts == WithChange(old(db.workouts), id, MarkDiscarded)
  {
    WithChangeKeepsKeys(db.workouts, id, MarkDiscarded, db.workoutTypes, db.workoutExercises);
    LeavingProgressKeepsSingleActive(db.workouts, id, MarkDiscarded);
    db.workouts := WithChange(db.workouts, id, MarkDiscarded);
  }

  // ---------------------------------------------------------------------------
  // remove

  /** The ids of a workout's exercise rows: `SELECT id FROM workout_exercises WHERE workout_id = ?`. */
  function LinkIds(links: seq<WorkoutExerciseRow>, workoutId: Id): (r: set<Id>)
    ensures forall x :: x in r <==> exists l :: l in links && l.workoutId == workoutId && l.id == x
  {
    set l | l in links && l.workoutId == workoutId :: l.id
  }

  function SetNotIn(ids: set<Id>): WorkoutSetRow -> bool {
    (s: WorkoutSetRow) => s.workoutExerciseId !in ids
  }

  function LinkNotOf(workoutId: Id): WorkoutExerciseRow -> bool {
    (l: WorkoutExerciseRow) => l.workoutId != workoutId
  }

  function WorkoutNot(id: Id): WorkoutRow -> bool {
    (w: WorkoutRow) => w.id != id
  }

  /** `remove`: the workout's sets, then its exercise rows, then the row, in one
      transaction; each DELETE removes the rows the next one's rows point to last,
      so no foreign key fails. */
  method Remove(db: Database, id: Id)
    requires db.Valid()
    modifies db`workoutSets, db`workoutExercises, db`workouts
    ensures db.Valid()
    ensures db.workoutSets == Filter(old(db.workoutSets), SetNotIn(LinkIds(old(db.workoutExercises), id)))
    ensures db.workoutExercises == Filter(old(db.workoutExercises), LinkNotOf(id))
    ensures db.workouts == Filter(old(db.workouts), WorkoutNot(id))
  {
    var gone := LinkIds(db.workoutExercises, id);
    UniqueFilter(db.workoutSets, SetNotIn(gone), SetKey);
    UniqueFilter(db.workoutExercises, LinkNotOf(id), WorkoutExerciseKey);
    UniqueFilter(db.workouts, WorkoutNot(id), WorkoutKey);
    db.workoutSets := Filter(db.workoutSets, SetNotIn(gone));
    db.workoutExercises := Filter(db.workoutExercises, LinkNotOf(id));
    db.workouts := Filter(db.workouts, WorkoutNot(id));
    forall s | s in db.workoutSets ensures s.workoutExerciseId in Keys(db.workoutExercises, WorkoutExerciseKey) {
      var l :| l in old(db.workoutExercises) && l.id == s.workoutExerciseId;
      assert l.workoutId != id;
      assert l in db.workoutExercises;
    }
    forall l | l in db.workoutExercises ensures l.workoutId in Keys(db.workouts, WorkoutKey) {
      var w :| w in old(db.workouts) && w.id == l.workoutId;
      assert w in db.workouts;
    }
    SingleActiveFilter(old(db.workouts), WorkoutNot(id));
  }

  lemma {:induction false} SingleActiveFilter(ws: seq<WorkoutRow>, keep: WorkoutRow -> bool)
    requires AtMostOneActive(ws)
    ensures AtMostOneActive(Filter(ws, keep))
  {
    if ws != [] {
      SingleActiveFilter(ws[1..], keep);
      var rest := Filter(ws[1..], keep);
      var r := Filter(ws, keep);
      if keep(ws[0]) {
        assert r == [ws[0]] + rest;
        if ws[0].status == InProgress {
          forall j | 0 <= j < |rest| ensures rest[j].status != InProgress {
            assert rest[j] in ws[1..];
            var k :| 0 <= k < |ws[1..]| && ws[1..][k] == rest[j];
            assert ws[k + 1] == rest[j];
          }
        }
        forall i, j | 0 <= i < j < |r| && r[i].status == InProgress ensures r[j].status != InProgress {
          if i > 0 {
            assert r[i] == rest[i - 1] && r[j] == rest[j - 1];
          }
        }
      }
    }
  }

  /** After `remove` nothing refers to the workout: no row of it, no exercise row
      of it, no set of those rows; every other workout is kept. */
  lemma RemoveLeavesNoTrace(sets: seq<WorkoutSetRow>, links: seq<WorkoutExerciseRow>, ws: seq<WorkoutRow>, id: Id)
    ensures id !in Keys(Filter(ws, WorkoutNot(id)), WorkoutKey)
    ensures forall w :: w in ws && w.id != id ==> w in Filter(ws, WorkoutNot(id))
    ensures forall l :: l in Filter(links, LinkNotOf(id)) ==> l.workoutId != id
    ensures forall s, l :: s in Filter(sets, SetNotIn(LinkIds(links, id))) && l in links && l.workoutId == id ==>
              s.workoutExerciseId != l.id
  {
  }

  // ---------------------------------------------------------------------------
  // getCompleted, getCompletedCount, getCompletedByDateRange

  predicate IsCompleted(w: WorkoutRow) {
    w.status == Completed
  }

  /** `ORDER BY started_at DESC`. */
  predicate LaterStart(a: WorkoutRow, b: WorkoutRow) {
    a.startedAt >= b.startedAt
  }

  lemma LaterStartTotal()
    ensures TotalPreorder(LaterStart)
  {
  }

  /** The completed workouts, newest start first. */
  function CompletedNewestFirst(ws: seq<WorkoutRow>): (r: seq<WorkoutRow>)
    ensures forall w :: w in r <==> w in ws && w.status == Completed
    ensures |r| == |Filter(ws, IsCompleted)|
    ensures forall i, j :: 0 <= i < j < |r| ==> r[i].startedAt >= r[j].startedAt
  {
    LaterStartTotal();
    SortByMembers(Filter(ws, IsCompleted), LaterStart);
    SortBy(Filter(ws, IsCompleted), LaterStart)
  }

  /** Where SQLite's `OFFSET ?` starts reading: a negative offset counts as 0. */
  function WindowStart(n: nat, offset: int): (from: nat)
    ensures from <= n
    ensures offset >= n ==> from == n
  {
    if offset < 0 then 0 else if offset > n then n else offset
  }

  /** SQLite's `LIMIT ? OFFSET ?`: a negative limit means no limit. */
  function Window<T>(rows: seq<T>, limit: int, offset: int): (r: seq<T>)
    ensures var from := WindowStart(|rows|, offset);
      && from + |r| <= |rows|
      && r == rows[from..from + |r|]
      && (limit < 0 ==> |r| == |rows| - from)
      && (limit >= 0 ==> |r| == if |rows| - from <= limit then |rows| - from else limit)
  {
    var from := WindowStart(|rows|, offset);
    var rest := rows[from..];
    if limit < 0 || |rest| <= limit then rest else rest[..limit]
  }

  /** `getCompleted`. */
  function GetCompleted(ws: seq<WorkoutRow>, limit: int, offset: int): seq<WorkoutRow> {
    Window(CompletedNewestFirst(ws), limit, offset)
  }

  /** `getCompletedCount`. */
  function CompletedCount(ws: seq<WorkoutRow>): (r: nat)
    ensures r == |CompletedNewestFirst(ws)|
    ensures r == 0 <==> forall w :: w in ws ==> w.status != Completed
  {
    assert |Filter(ws, IsCompleted)| > 0 ==> Filter(ws, IsCompleted)[0] in Filter(ws, IsCompleted);
    |Filter(ws, IsCompleted)|
  }

  /** A page of `getCompleted` holds only completed workouts, newest first, at most
      `limit` of them; a page starting at or past the count is empty. */
  lemma GetCompletedPage(ws: seq<WorkoutRow>, limit: int, offset: int)
    ensures forall w :: w in GetCompleted(ws, limit, offset) ==> w in ws && w.status == Completed
    ensures forall i, j :: 0 <= i < j < |GetCompleted(ws, limit, offset)| ==>
              GetCompleted(ws, limit, offset)[i].startedAt >= GetCompleted(ws, limit, offset)[j].startedAt
    ensures limit >= 0 ==> |GetCompleted(ws, limit, offset)| <= limit
    ensures offset >= CompletedCount(ws) ==> GetCompleted(ws, limit, offset) == []
    ensures 0 <= offset < CompletedCount(ws) && limit != 0 ==> GetCompleted(ws, limit, offset) != []
  {
    var all := CompletedNewestFirst(ws);
    var r := GetCompleted(ws, limit, offset);
    var from := WindowStart(|all|, offset);
    SliceOrdered(all, from, |r|);
    forall w | w in r ensures w in ws && w.status == Completed {
      var k :| 0 <= k < |r| && r[k] == w;
      assert all[from + k] == w;
    }
  }

  lemma SliceOrdered(all: seq<WorkoutRow>, from: nat, n: nat)
    requires from + n <= |all|
    requires forall i, j :: 0 <= i < j < |all| ==> all[i].startedAt >= all[j].startedAt
    ensures var r := all[from..from + n];
      forall i, j :: 0 <= i < j < |r| ==> r[i].startedAt >= r[j].startedAt
  {
    var r := all[from..from + n];
    forall i, j | 0 <= i < j < |r| ensures r[i].startedAt >= r[j].startedAt {
      assert r[i] == all[from + i] && r[j] == all[from + j];
    }
  }

  /** One page as large as the count, from offset 0, holds every completed workout. */
  lemma FirstPageHoldsAll(ws: seq<WorkoutRow>)
    ensures forall w :: w in GetCompleted(ws, CompletedCount(ws), 0) <==> w in ws && w.status == Completed
  {
    var all := CompletedNewestFirst(ws);
    assert GetCompleted(ws, CompletedCount(ws), 0) == all[0..];
    assert all[0..] == all;
  }

  /** `started_at >= ? AND started_at <= ?`: the caller's bounds are text and are
      compared with the stored `started_at` text under BINARY collation. `stamp`
      is the text the database stored for a time. */
  function InRange(stamp: Time -> string, startDate: string, endDate: string): WorkoutRow -> bool {
    (w: WorkoutRow) => StrLe(startDate, stamp(w.startedAt)) && StrLe(stamp(w.startedAt), endDate)
  }

  /** `getCompletedByDateRange`: the completed workouts whose stored start text
      lies between the two bounds, newest first. */
  function GetCompletedByDateRange(ws: seq<WorkoutRow>, stamp: Time -> string, startDate: string, endDate: string)
    : (r: seq<WorkoutRow>)
    ensures forall w :: w in r <==>
              w in ws && w.status == Completed
              && StrLe(startDate, stamp(w.startedAt)) && StrLe(stamp(w.startedAt), endDate)
    ensures forall w :: multiset(r)[w] ==
              if w.status == Completed && InRange(stamp, startDate, endDate)(w) then multiset(ws)[w] else 0
    ensures forall i, j :: 0 <= i < j < |r| ==> r[i].startedAt >= r[j].startedAt
  {
    LaterStartTotal();
    FilterMultiset(ws, IsCompleted);
    FilterMultiset(CompletedNewestFirst(ws), InRange(stamp, startDate, endDate));
    FilterSorted(CompletedNewestFirst(ws), InRange(stamp, startDate, endDate), LaterStart);
    Filter(CompletedNewestFirst(ws), InRange(stamp, startDate, endDate))
  }

  /** When the stored text sorts as the times do and the bounds are stored
      texts themselves, the range is the closed range of times. */
  lemma DateRangeOfStamps(ws: seq<WorkoutRow>, stamp: Time -> string, startTime: Time, endTime: Time)
    requires forall a: Time, b: Time :: a <= b <==> StrLe(stamp(a), stamp(b))
    ensures forall w :: w in GetCompletedByDateRange(ws, stamp, stamp(startTime), stamp(endTime)) <==>
              w in ws && w.status == Completed && startTime <= w.startedAt <= endTime
  {
  }

  /** A bound that is a proper prefix of a stored start, such as a bare date
      against a date and time, sorts before it: as an end bound it leaves out
      every workout started on that day. */
  lemma {:induction false} PrefixBoundExcludes(t: string, bound: string)
    requires |bound| < |t| && t[..|bound|] == bound
    ensures !StrLe(t, bound)
    decreases |bound|
  {
    if bound != [] {
      assert t[1..][..|bound| - 1] == bound[1..];
      PrefixBoundExcludes(t[1..], bound[1..]);
    }
  }
}
