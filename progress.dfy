/** The progress statistics the model covers: the current streak of training
    days and the personal-record maxima of one exercise. Days are UTC calendar
    days numbered from the epoch; `date(started_at)` is the day a timestamp falls in. */
module Progress {
  import opened Wrappers
  import opened Store
  import opened Query

  const SecondsPerDay: int := 86400

  /** `date(t)`: the UTC day of a timestamp (floor division). */
  function Day(t: Time): int {
    t / SecondsPerDay
  }

  predicate StrictlyDescending(s: seq<int>) {
    forall i, j :: 0 <= i < j < |s| ==> s[i] > s[j]
  }

  /** Adds one day to a strictly descending list of days, keeping it so. */
  function InsertDay(x: int, s: seq<int>): (r: seq<int>)
    requires StrictlyDescending(s)
    ensures StrictlyDescending(r)
    ensures forall d :: d in r <==> d == x || d in s
  {
    if s == [] then [x]
    else if x == s[0] then s
    else if x > s[0] then [x] + s
    else
      var rest := InsertDay(x, s[1..]);
      assert forall d :: d in s[1..] ==> d < s[0];
      ConsDescending(s[0], rest);
      [s[0]] + rest
  }

  /** A day above every day of a strictly descending list may go in front of it. */
  lemma ConsDescending(h: int, rest: seq<int>)
    requires StrictlyDescending(rest)
    requires forall d :: d in rest ==> d < h
    ensures StrictlyDescending([h] + rest)
  {
    var r := [h] + rest;
    forall i, j | 0 <= i < j < |r| ensures r[i] > r[j] {
      assert r[j] == rest[j - 1] && rest[j - 1] in rest;
      if i > 0 {
        assert r[i] == rest[i - 1];
      }
    }
  }

  /** `SELECT DISTINCT ... ORDER BY day DESC` over a list of days. */
  function DistinctDescending(days: seq<int>): (r: seq<int>)
    ensures StrictlyDescending(r)
    ensures forall d :: d in r <==> d in days
  {
    if days == [] then []
    else InsertDay(days[0], DistinctDescending(days[1..]))
  }

  predicate IsCompletedRow(w: WorkoutRow) {
    w.status == Completed
  }

  /** The days of the completed workouts, one entry per workout. */
  function CompletedDays(ws: seq<WorkoutRow>): (r: seq<int>)
    ensures forall d :: d in r <==> exists w :: w in ws && w.status == Completed && Day(w.startedAt) == d
  {
    var done := Filter(ws, IsCompletedRow);
    var r := seq(|done|, i requires 0 <= i < |done| => Day(done[i].startedAt));
    assert forall w :: w in done ==> Day(w.startedAt) in r by {
      forall w | w in done ensures Day(w.startedAt) in r {
        var i :| 0 <= i < |done| && done[i] == w;
        assert r[i] == Day(w.startedAt);
      }
    }
    assert forall d :: d in r ==> exists w :: w in ws && w.status == Completed && Day(w.startedAt) == d by {
      forall d | d in r ensures exists w :: w in ws && w.status == Completed && Day(w.startedAt) == d {
        var i :| 0 <= i < |r| && r[i] == d;
        assert done[i] in done;
      }
    }
    r
  }

  /** The rows of the streak query: each training day once, most recent first. */
  function TrainingDays(ws: seq<WorkoutRow>): (r: seq<int>)
    ensures StrictlyDescending(r)
    ensures forall d :: d in r <==> exists w :: w in ws && w.status == Completed && Day(w.startedAt) == d
  {
    DistinctDescending(CompletedDays(ws))
  }

  /** The leading run of `days` in which the k-th entry is `today - k`. */
  function Streak(days: seq<int>, today: int): (n: nat)
    ensures n <= |days|
    ensures forall k :: 0 <= k < n ==> days[k] == today - k
    ensures n < |days| ==> days[n] != today - n
  {
    if days == [] || days[0] != today then 0
    else
      var n := Streak(days[1..], today - 1);
      assert forall k :: 1 <= k < n + 1 ==> days[k] == days[1..][k - 1];
      1 + n
  }

  /** The walk of `getCurrentStreak`: count while the next day is the expected one. */
  method CurrentStreak(days: seq<int>, today: int) returns (streak: nat)
    ensures streak == Streak(days, today)
  {
    if |days| == 0 {
      return 0;
    }
    streak := 0;
    while streak < |days|
      invariant streak <= |days|
      invariant forall k :: 0 <= k < streak ==> days[k] == today - k
      invariant streak <= Streak(days, today)
    {
      if days[streak] == today - streak {
        streak := streak + 1;
      } else {
        break;
      }
    }
  }

  /** `getCurrentStreak`, with the current UTC day as `today`. */
  method GetCurrentStreak(db: Database, today: int) returns (streak: nat)
    ensures streak == Streak(TrainingDays(db.workouts), today)
    ensures (forall w :: w in db.workouts ==> w.status != Completed) ==> streak == 0
  {
    var days := TrainingDays(db.workouts);
    streak := CurrentStreak(days, today);
    if days != [] {
      assert days[0] in days;
    }
  }

  /** What the streak means: with no training day after `today`, it is the number
      of consecutive days ending today that each hold a completed workout. In
      particular it is 0 when nothing was completed today. */
  lemma StreakMeaning(days: seq<int>, today: int)
    requires StrictlyDescending(days)
    requires forall d :: d in days ==> d <= today
    ensures forall d :: today - Streak(days, today) < d <= today ==> d in days
    ensures today - Streak(days, today) !in days
    ensures today !in days ==> Streak(days, today) == 0
  {
    var n := Streak(days, today);
    forall d | today - n < d <= today ensures d in days {
      assert days[today - d] == d;
    }
    forall i | 0 <= i < |days| ensures days[i] != today - n {
      if i < n {
        assert days[i] == today - i;
      } else if n == 0 {
        assert days[i] <= days[0] && days[0] != today;
        assert days[0] in days;
      } else {
        assert days[n - 1] == today - (n - 1);
        if i > n {
          assert days[i] < days[n];
        }
        assert days[n] != today - n;
      }
    }
  }

  // ---------------------------------------------------------------------------
  // Personal records (the maxima of `getPersonalRecords`).

  /** The largest present value: SQL `MAX` skips NULLs and is NULL when all are. */
  function MaxPresent(vs: seq<Option<real>>): (r: Option<real>)
    ensures r.None? <==> forall i :: 0 <= i < |vs| ==> vs[i].None?
    ensures r.Some? ==> r in vs
    ensures r.Some? ==> forall i :: 0 <= i < |vs| && vs[i].Some? ==> vs[i].value <= r.value
  {
    if vs == [] then None
    else
      var rest := MaxPresent(vs[1..]);
      assert forall i :: 1 <= i < |vs| ==> vs[i] == vs[1..][i - 1];
      match vs[0]
      case None => rest
      case Some(v) => if rest.Some? && rest.value > v then rest else Some(v)
  }

  /** The join of the records query: a set belongs when its row's exercise is
      `exerciseId` and its workout is completed. */
  function RecordSet(ws: seq<WorkoutRow>, links: seq<WorkoutExerciseRow>, exerciseId: Id): WorkoutSetRow -> bool {
    (s: WorkoutSetRow) =>
      match Lookup(links, WorkoutExerciseKey, s.workoutExerciseId)
      case None => false
      case Some(l) =>
        l.exerciseId == exerciseId &&
        match Lookup(ws, WorkoutKey, l.workoutId)
        case None => false
        case Some(w) => w.status == Completed
  }

  function Weights(sets: seq<WorkoutSetRow>): (r: seq<Option<real>>)
    ensures |r| == |sets| && forall i :: 0 <= i < |sets| ==> r[i] == sets[i].weightKg
  {
    seq(|sets|, i requires 0 <= i < |sets| => sets[i].weightKg)
  }

  function RepsOf(sets: seq<WorkoutSetRow>): (r: seq<Option<real>>)
    ensures |r| == |sets| && forall i :: 0 <= i < |sets| ==> r[i] == sets[i].reps
  {
    seq(|sets|, i requires 0 <= i < |sets| => sets[i].reps)
  }

  datatype PersonalRecords = PersonalRecords(maxWeight: Option<real>, maxReps: Option<real>)

  /** `maxWeight` and `maxReps` of `getPersonalRecords`. */
  function GetPersonalRecords(ws: seq<WorkoutRow>, links: seq<WorkoutExerciseRow>, sets: seq<WorkoutSetRow>,
                              exerciseId: Id): (r: PersonalRecords)
    ensures r.maxWeight.Some? ==> exists s :: s in sets && RecordSet(ws, links, exerciseId)(s) && s.weightKg == r.maxWeight
    ensures forall s :: s in sets && RecordSet(ws, links, exerciseId)(s) && s.weightKg.Some? ==>
              r.maxWeight.Some? && s.weightKg.value <= r.maxWeight.value
    ensures r.maxReps.Some? ==> exists s :: s in sets && RecordSet(ws, links, exerciseId)(s) && s.reps == r.maxReps
    ensures forall s :: s in sets && RecordSet(ws, links, exerciseId)(s) && s.reps.Some? ==>
              r.maxReps.Some? && s.reps.value <= r.maxReps.value
  {
    var counted := Filter(sets, RecordSet(ws, links, exerciseId));
    MaxOfProjection(counted, Weights(counted), (s: WorkoutSetRow) => s.weightKg);
    MaxOfProjection(counted, RepsOf(counted), (s: WorkoutSetRow) => s.reps);
    PersonalRecords(MaxPresent(Weights(counted)), MaxPresent(RepsOf(counted)))
  }

  /** The maximum of one column over some rows is that column of one of them and
      bounds it on all of them. */
  lemma MaxOfProjection(rows: seq<WorkoutSetRow>, vs: seq<Option<real>>, column: WorkoutSetRow -> Option<real>)
    requires |vs| == |rows| && forall i :: 0 <= i < |rows| ==> vs[i] == column(rows[i])
    ensures MaxPresent(vs).Some? ==> exists s :: s in rows && column(s) == MaxPresent(vs)
    ensures forall s :: s in rows && column(s).Some? ==>
              MaxPresent(vs).Some? && column(s).value <= MaxPresent(vs).value
  {
    var m := MaxPresent(vs);
    forall s | s in rows && column(s).Some? ensures m.Some? && column(s).value <= m.value {
      var i :| 0 <= i < |rows| && rows[i] == s;
      assert vs[i] == column(s);
    }
    if m.Some? {
      var i :| 0 <= i < |vs| && vs[i] == m;
      assert rows[i] in rows;
    }
  }

  /** Sets logged in a workout that is not completed leave the records alone. */
  lemma RecordsIgnoreUnfinished(ws: seq<WorkoutRow>, links: seq<WorkoutExerciseRow>, sets: seq<WorkoutSetRow>,
                                s: WorkoutSetRow, exerciseId: Id)
    requires Lookup(links, WorkoutExerciseKey, s.workoutExerciseId).Some?
    requires var l := Lookup(links, WorkoutExerciseKey, s.workoutExerciseId).value;
             Lookup(ws, WorkoutKey, l.workoutId).Some? ==> Lookup(ws, WorkoutKey, l.workoutId).value.status != Completed
    ensures GetPersonalRecords(ws, links, sets + [s], exerciseId) == GetPersonalRecords(ws, links, sets, exerciseId)
  {
    var keep := RecordSet(ws, links, exerciseId);
    FilterAppend(sets, [s], keep);
    assert Filter([s], keep) == [];
    assert Filter(sets + [s], keep) == Filter(sets, keep);
  }
}
