/** The `workout_sets` table: appending a set under a workout-exercise row,
    overwriting its payload, deleting it and closing the gap in the numbering,
    and the queries that read sets back. The invariant the numbering keeps is
    `Dense`: the set numbers under one parent are exactly 1..n. */
module WorkoutSets {
  import opened Wrappers
  import opened Store
  import opened Query
  import opened Json

  /** `WorkoutSetInput`: None is an omitted or null field; `customFields` is the
      object's members. */
  datatype SetInput = SetInput(
    reps: Option<real>, weightKg: Option<real>, durationSeconds: Option<real>,
    distanceMeters: Option<real>, customFields: Option<seq<Member>>)

  /** The default `data = {}` of `add`. */
  const NoInput: SetInput := SetInput(None, None, None, None, None)

  // ---------------------------------------------------------------------------
  // Rows under one parent.

  /** `WHERE workout_exercise_id = parent`, in table order. */
  function SetsOf(sets: seq<WorkoutSetRow>, parent: Id): (r: seq<WorkoutSetRow>)
    ensures |r| <= |sets|
    ensures forall s :: s in r <==> s in sets && s.workoutExerciseId == parent
  {
    if sets == [] then []
    else
      assert sets == [sets[0]] + sets[1..];
      (if sets[0].workoutExerciseId == parent then [sets[0]] else []) + SetsOf(sets[1..], parent)
  }

  function Numbers(rows: seq<WorkoutSetRow>): (r: seq<int>)
    ensures |r| == |rows| && forall i :: 0 <= i < |rows| ==> r[i] == rows[i].setNumber
  {
    seq(|rows|, i requires 0 <= i < |rows| => rows[i].setNumber)
  }

  /** The set numbers under `parent`, in table order. */
  function SetNumbers(sets: seq<WorkoutSetRow>, parent: Id): seq<int> {
    Numbers(SetsOf(sets, parent))
  }

  /** The numbers are exactly 1..n, each once. */
  predicate Dense(ns: seq<int>) {
    && (forall i :: 0 <= i < |ns| ==> 1 <= ns[i] <= |ns|)
    && (forall i, j :: 0 <= i < j < |ns| ==> ns[i] != ns[j])
  }

  lemma {:induction false} SetsOfAppend(a: seq<WorkoutSetRow>, b: seq<WorkoutSetRow>, parent: Id)
    ensures SetsOf(a + b, parent) == SetsOf(a, parent) + SetsOf(b, parent)
    decreases |a|
  {
    if a == [] {
      assert a + b == b;
    } else {
      assert (a + b)[0] == a[0] && (a + b)[1..] == a[1..] + b;
      SetsOfAppend(a[1..], b, parent);
    }
  }

  lemma NumbersAppend(a: seq<WorkoutSetRow>, b: seq<WorkoutSetRow>)
    ensures Numbers(a + b) == Numbers(a) + Numbers(b)
  {
  }

  lemma SetNumbersSingle(row: WorkoutSetRow, parent: Id)
    ensures SetNumbers([row], parent) == if row.workoutExerciseId == parent then [row.setNumber] else []
  {
    assert SetsOf([row], parent) == (if row.workoutExerciseId == parent then [row] else []) + SetsOf([], parent);
  }

  lemma SetNumbersAppend(a: seq<WorkoutSetRow>, b: seq<WorkoutSetRow>, parent: Id)
    ensures SetNumbers(a + b, parent) == SetNumbers(a, parent) + SetNumbers(b, parent)
  {
    SetsOfAppend(a, b, parent);
    NumbersAppend(SetsOf(a, parent), SetsOf(b, parent));
  }

  // ---------------------------------------------------------------------------
  // add

  /** The `set_number` `add` gives: one past the highest under the parent, or 1. */
  function NextSetNumber(sets: seq<WorkoutSetRow>, parent: Id): int {
    NextAfterMax(SetNumbers(sets, parent), 1)
  }

  /** `data.customFields ? JSON.stringify(data.customFields) : null`: an object
      is always truthy, so a supplied object is stored as its JSON text. */
  function StoredFields(fields: Option<seq<Member>>): (r: Option<string>)
    ensures r.None? <==> fields.None?
    ensures r.Some? ==> r.value != []
  {
    match fields
    case None => None
    case Some(members) => Some(Encode(JObject(members)))
  }

  /** The row `add` inserts. */
  function NewSet(sets: seq<WorkoutSetRow>, parent: Id, data: SetInput, id: Id, now: Time): WorkoutSetRow {
    WorkoutSetRow(id, parent, NextSetNumber(sets, parent), data.reps, data.weightKg,
                  data.durationSeconds, data.distanceMeters, StoredFields(data.customFields),
                  Some(now), now)
  }

  /** `add`: the INSERT fails on a taken id or an unknown parent; otherwise the
      new row is appended and returned. */
  method Add(db: Database, workoutExerciseId: Id, data: SetInput, id: Id, now: Time)
    returns (r: Result<WorkoutSetRow, DbError>)
    requires db.Valid()
    modifies db`workoutSets
    ensures db.Valid()
    ensures r.Success? <==>
              id !in Keys(old(db.workoutSets), SetKey) &&
              workoutExerciseId in Keys(db.workoutExercises, WorkoutExerciseKey)
    ensures r.Failure? ==> db.workoutSets == old(db.workoutSets)
    ensures r.Success? ==>
              && r.value == NewSet(old(db.workoutSets), workoutExerciseId, data, id, now)
              && db.workoutSets == old(db.workoutSets) + [r.value]
  {
    if id in Keys(db.workoutSets, SetKey) {
      return Failure(PrimaryKey("workout_sets"));
    }
    if workoutExerciseId !in Keys(db.workoutExercises, WorkoutExerciseKey) {
      return Failure(ForeignKey);
    }
    var row := NewSet(db.workoutSets, workoutExerciseId, data, id, now);
    UniqueAppend(db.workoutSets, row, SetKey);
    db.workoutSets := db.workoutSets + [row];
    return Success(row);
  }

  /** The new set is numbered above every set already under its parent, and 1
      when it is the first. */
  lemma AddNumbering(sets: seq<WorkoutSetRow>, parent: Id, data: SetInput, id: Id, now: Time)
    ensures var n := NewSet(sets, parent, data, id, now).setNumber;
      && (forall s :: s in sets && s.workoutExerciseId == parent ==> s.setNumber < n)
      && ((forall s :: s in sets ==> s.workoutExerciseId != parent) ==> n == 1)
  {
    var ns := SetNumbers(sets, parent);
    var rows := SetsOf(sets, parent);
    forall s | s in sets && s.workoutExerciseId == parent
      ensures s.setNumber < NextSetNumber(sets, parent)
    {
      assert s in rows;
      var k :| 0 <= k < |rows| && rows[k] == s;
      assert ns[k] == s.setNumber;
    }
    if rows != [] {
      assert rows[0] in rows;
      assert rows[0] in sets && rows[0].workoutExerciseId == parent;
    }
  }

  /** n distinct values drawn from 1..m need m >= n. */
  lemma {:induction false} Pigeonhole(ns: seq<int>, m: int)
    requires m >= 0
    requires forall i :: 0 <= i < |ns| ==> 1 <= ns[i] <= m
    requires forall i, j :: 0 <= i < j < |ns| ==> ns[i] != ns[j]
    ensures |ns| <= m
    decreases m
  {
    if ns != [] {
      assert 1 <= ns[0] <= m;
      if m in ns {
        var k :| 0 <= k < |ns| && ns[k] == m;
        var rest := ns[..k] + ns[k + 1..];
        forall i | 0 <= i < |rest| ensures 1 <= rest[i] <= m - 1 {
          var i' := if i < k then i else i + 1;
          assert rest[i] == ns[i'];
        }
        forall i, j | 0 <= i < j < |rest| ensures rest[i] != rest[j] {
          var i' := if i < k then i else i + 1;
          var j' := if j < k then j else j + 1;
          assert rest[i] == ns[i'] && rest[j] == ns[j'];
        }
        Pigeonhole(rest, m - 1);
      } else {
        forall i | 0 <= i < |ns| ensures 1 <= ns[i] <= m - 1 {
          assert ns[i] in ns;
        }
        Pigeonhole(ns, m - 1);
      }
    }
  }

  /** Under a dense numbering, one past the highest number is one past the count. */
  lemma DenseNext(ns: seq<int>)
    requires Dense(ns)
    ensures NextAfterMax(ns, 1) == |ns| + 1
  {
    if ns != [] {
      var top := NextAfterMax(ns, 1) - 1;
      var k :| 0 <= k < |ns| && ns[k] == top;
      if top < |ns| {
        Pigeonhole(ns, top);
      }
    }
  }

  /** A dense numbering extended by one past its count is dense. */
  lemma DenseExtend(ns: seq<int>)
    requires Dense(ns)
    ensures Dense(ns + [|ns| + 1])
  {
    var ext := ns + [|ns| + 1];
    forall i | 0 <= i < |ext| ensures 1 <= ext[i] <= |ext| {
      if i < |ns| {
        assert ext[i] == ns[i];
      }
    }
    forall i, j | 0 <= i < j < |ext| ensures ext[i] != ext[j] {
      assert ext[i] == ns[i];
      if j < |ns| {
        assert ext[j] == ns[j];
      }
    }
  }

  /** Appending to a dense numbering: the new number is n + 1 and the numbering
      stays dense. */
  lemma AddKeepsDense(sets: seq<WorkoutSetRow>, parent: Id, data: SetInput, id: Id, now: Time)
    requires Dense(SetNumbers(sets, parent))
    ensures NewSet(sets, parent, data, id, now).setNumber == |SetNumbers(sets, parent)| + 1
    ensures Dense(SetNumbers(sets + [NewSet(sets, parent, data, id, now)], parent))
  {
    var ns := SetNumbers(sets, parent);
    var row := NewSet(sets, parent, data, id, now);
    DenseNext(ns);
    calc {
      SetNumbers(sets + [row], parent);
    == { SetNumbersAppend(sets, [row], parent); }
      ns + SetNumbers([row], parent);
    == { SetNumbersSingle(row, parent); }
      ns + [|ns| + 1];
    }
    DenseExtend(ns);
  }

  /** Every parent's numbering is dense. */
  ghost predicate AllDense(sets: seq<WorkoutSetRow>) {
    forall p :: Dense(SetNumbers(sets, p))
  }

  /** `add` keeps every parent's numbering dense. */
  lemma AddKeepsAllDense(sets: seq<WorkoutSetRow>, parent: Id, data: SetInput, id: Id, now: Time)
    requires AllDense(sets)
    ensures AllDense(sets + [NewSet(sets, parent, data, id, now)])
  {
    var row := NewSet(sets, parent, data, id, now);
    forall q ensures Dense(SetNumbers(sets + [row], q)) {
      if q == parent {
        AddKeepsDense(sets, parent, data, id, now);
      } else {
        SetNumbersAppend(sets, [row], q);
        assert SetsOf([row], q) == [];
        assert SetNumbers(sets + [row], q) == SetNumbers(sets, q);
      }
    }
  }

  // ---------------------------------------------------------------------------
  // mapRow

  /** A set as the repository returns it: `customFields` parsed from its text. */
  datatype WorkoutSet = WorkoutSet(
    id: Id, workoutExerciseId: Id, setNumber: int, reps: Option<real>, weightKg: Option<real>,
    durationSeconds: Option<real>, distanceMeters: Option<real>, customFields: Option<JValue>,
    completedAt: Option<Time>, createdAt: Time)

  /** `row.custom_fields ? JSON.parse(row.custom_fields) : null`: null and the
      empty text give null, malformed text makes `JSON.parse` throw. */
  function DecodeFields(text: Option<string>): (r: Result<Option<JValue>, DbError>)
    ensures r.Failure? <==> text.Some? && text.value != [] && Parse(text.value).None?
    ensures r.Success? && r.value.Some? ==> text.Some? && Parse(text.value) == r.value
  {
    if text.None? || text.value == [] then Success(None)
    else
      match Parse(text.value)
      case None => Failure(InvalidJson)
      case Some(v) => Success(Some(v))
  }

  /** `mapRow`: every column copied, `custom_fields` decoded. */
  function MapSet(row: WorkoutSetRow): (r: Result<WorkoutSet, DbError>)
    ensures r.Success? <==> DecodeFields(row.customFields).Success?
    ensures r.Success? ==>
              && r.value.id == row.id && r.value.workoutExerciseId == row.workoutExerciseId
              && r.value.setNumber == row.setNumber && r.value.reps == row.reps
              && r.value.weightKg == row.weightKg && r.value.durationSeconds == row.durationSeconds
              && r.value.distanceMeters == row.distanceMeters
              && r.value.completedAt == row.completedAt && r.value.createdAt == row.createdAt
              && r.value.customFields == DecodeFields(row.customFields).value
  {
    var fields :- DecodeFields(row.customFields);
    Success(WorkoutSet(row.id, row.workoutExerciseId, row.setNumber, row.reps, row.weightKg,
                       row.durationSeconds, row.distanceMeters, fields, row.completedAt, row.createdAt))
  }

  /** The object members the input carried, as the JSON value they decode to. */
  function AsObject(fields: Option<seq<Member>>): Option<JValue> {
    match fields
    case None => None
    case Some(members) => Some(JObject(members))
  }

  /** What `add` and `update` store for `customFields` reads back as the same object. */
  lemma DecodeStoredFields(fields: Option<seq<Member>>)
    ensures DecodeFields(StoredFields(fields)) == Success(AsObject(fields))
  {
    if fields.Some? {
      ParseEncode(JObject(fields.value));
    }
  }

  /** The set `add` returns carries exactly the payload it was given. */
  lemma AddReturnsInput(sets: seq<WorkoutSetRow>, parent: Id, data: SetInput, id: Id, now: Time)
    ensures var r := MapSet(NewSet(sets, parent, data, id, now));
      && r.Success?
      && r.value.reps == data.reps && r.value.weightKg == data.weightKg
      && r.value.durationSeconds == data.durationSeconds
      && r.value.distanceMeters == data.distanceMeters
      && r.value.customFields == AsObject(data.customFields)
      && r.value.completedAt == Some(now)
  {
    DecodeStoredFields(data.customFields);
  }

  /** `add` with the default `{}`: every payload column is null. */
  lemma AddNoInput(sets: seq<WorkoutSetRow>, parent: Id, id: Id, now: Time)
    ensures var row := NewSet(sets, parent, NoInput, id, now);
      && row.reps.None? && row.weightKg.None? && row.durationSeconds.None?
      && row.distanceMeters.None? && row.customFields.None?
  {
  }

  // ---------------------------------------------------------------------------
  // update

  /** One row after `update`'s UPDATE: the five payload columns overwritten,
      omitted fields becoming null. */
  function Overwrite(row: WorkoutSetRow, data: SetInput): WorkoutSetRow {
    row.(reps := data.reps, weightKg := data.weightKg, durationSeconds := data.durationSeconds,
         distanceMeters := data.distanceMeters, customFields := StoredFields(data.customFields))
  }

  /** The table after `UPDATE workout_sets SET <payload> WHERE id = ?`. */
  function WithPayload(sets: seq<WorkoutSetRow>, id: Id, data: SetInput): (r: seq<WorkoutSetRow>)
    ensures |r| == |sets|
    ensures forall i :: 0 <= i < |sets| ==>
              && r[i].id == sets[i].id && r[i].workoutExerciseId == sets[i].workoutExerciseId
              && r[i].setNumber == sets[i].setNumber
              && r[i].completedAt == sets[i].completedAt && r[i].createdAt == sets[i].createdAt
    ensures forall i :: 0 <= i < |sets| && sets[i].id != id ==> r[i] == sets[i]
    ensures forall i :: 0 <= i < |sets| && sets[i].id == id ==>
              && r[i].reps == data.reps && r[i].weightKg == data.weightKg
              && r[i].durationSeconds == data.durationSeconds
              && r[i].distanceMeters == data.distanceMeters
              && r[i].customFields == StoredFields(data.customFields)
  {
    seq(|sets|, i requires 0 <= i < |sets| => if sets[i].id == id then Overwrite(sets[i], data) else sets[i])
  }

  /** Two tables whose rows agree position by position on id and parent. */
  predicate SameIdsAndParents(a: seq<WorkoutSetRow>, b: seq<WorkoutSetRow>) {
    && |a| == |b|
    && forall i :: 0 <= i < |a| ==> a[i].id == b[i].id && a[i].workoutExerciseId == b[i].workoutExerciseId
  }

  /** Rewriting columns other than id and parent keeps the key and the foreign key. */
  lemma SameIdsKeepConstraints(a: seq<WorkoutSetRow>, b: seq<WorkoutSetRow>, links: seq<WorkoutExerciseRow>)
    requires SameIdsAndParents(a, b)
    ensures Keys(a, SetKey) == Keys(b, SetKey)
    ensures Unique(a, SetKey) ==> Unique(b, SetKey)
    ensures SetsReferLinks(a, links) ==> SetsReferLinks(b, links)
  {
    forall k | k in Keys(a, SetKey) ensures k in Keys(b, SetKey) {
      var x :| x in a && x.id == k;
      var i :| 0 <= i < |a| && a[i] == x;
      assert b[i] in b;
    }
    forall k | k in Keys(b, SetKey) ensures k in Keys(a, SetKey) {
      var x :| x in b && x.id == k;
      var i :| 0 <= i < |b| && b[i] == x;
      assert a[i] in a;
    }
    if SetsReferLinks(a, links) {
      forall s | s in b ensures s.workoutExerciseId in Keys(links, WorkoutExerciseKey) {
        var i :| 0 <= i < |b| && b[i] == s;
        assert a[i] in a;
      }
    }
  }

  /** The row `update` reads back: the old row with the new payload. */
  lemma {:induction false} LookupWithPayload(sets: seq<WorkoutSetRow>, id: Id, data: SetInput)
    requires id in Keys(sets, SetKey)
    ensures Lookup(WithPayload(sets, id, data), SetKey, id) ==
            Some(Overwrite(Lookup(sets, SetKey, id).value, data))
    decreases |sets|
  {
    var r := WithPayload(sets, id, data);
    assert sets[0] in sets;
    if sets[0].id != id {
      assert r[1..] == WithPayload(sets[1..], id, data);
      assert id in Keys(sets[1..], SetKey) by {
        var x :| x in sets && x.id == id;
        var i :| 0 <= i < |sets| && sets[i] == x;
        assert sets[1..][i - 1] == x;
      }
      LookupWithPayload(sets[1..], id, data);
    }
  }

  /** The text of `update`'s Error. */
  function NotFoundAfterUpdate(id: Id): string {
    "Workout set not found after update, id " + id
  }

  /** `update`: the UPDATE, then the read-back, which throws when no row has the id. */
  method Update(db: Database, id: Id, data: SetInput) returns (r: Result<WorkoutSetRow, DbError>)
    requires db.Valid()
    modifies db`workoutSets
    ensures db.Valid()
    ensures db.workoutSets == WithPayload(old(db.workoutSets), id, data)
    ensures r.Success? <==> id in Keys(old(db.workoutSets), SetKey)
    ensures r.Failure? ==> r.error == Thrown(NotFoundAfterUpdate(id))
    ensures r.Success? ==> r.value == Overwrite(Lookup(old(db.workoutSets), SetKey, id).value, data)
  {
    ghost var before := db.workoutSets;
    db.workoutSets := WithPayload(db.workoutSets, id, data);
    SameIdsKeepConstraints(before, db.workoutSets, db.workoutExercises);
    var row := Lookup(db.workoutSets, SetKey, id);
    if row.None? {
      return Failure(Thrown(NotFoundAfterUpdate(id)));
    }
    LookupWithPayload(before, id, data);
    return Success(row.value);
  }

  // ---------------------------------------------------------------------------
  // remove

  /** `DELETE FROM workout_sets WHERE id = ?`. */
  function DeleteId(sets: seq<WorkoutSetRow>, id: Id): (r: seq<WorkoutSetRow>)
    ensures |r| <= |sets|
    ensures forall s :: s in r <==> s in sets && s.id != id
  {
    if sets == [] then []
    else
      assert sets == [sets[0]] + sets[1..];
      (if sets[0].id == id then [] else [sets[0]]) + DeleteId(sets[1..], id)
  }

  /** One row after `SET set_number = set_number - 1 WHERE workout_exercise_id = parent
      AND set_number > gap`. */
  function Shift(row: WorkoutSetRow, parent: Id, gap: int): WorkoutSetRow {
    if row.workoutExerciseId == parent && row.setNumber > gap then row.(setNumber := row.setNumber - 1)
    else row
  }

  /** The renumbering UPDATE over the table. */
  function Renumber(sets: seq<WorkoutSetRow>, parent: Id, gap: int): (r: seq<WorkoutSetRow>)
    ensures |r| == |sets| && forall i :: 0 <= i < |sets| ==> r[i] == Shift(sets[i], parent, gap)
  {
    seq(|sets|, i requires 0 <= i < |sets| => Shift(sets[i], parent, gap))
  }

  /** The table after `remove`: unchanged for an unknown id; otherwise the row
      deleted and the later siblings moved down by one. */
  function RemoveSet(sets: seq<WorkoutSetRow>, id: Id): (r: seq<WorkoutSetRow>)
    ensures id !in Keys(sets, SetKey) ==> r == sets
  {
    match Lookup(sets, SetKey, id)
    case None => sets
    case Some(target) => Renumber(DeleteId(sets, id), target.workoutExerciseId, target.setNumber)
  }

  /** `remove`: look the target up, DELETE it, renumber its later siblings; the
      transaction cannot fail once the target is found. */
  method Remove(db: Database, id: Id)
    requires db.Valid()
    modifies db`workoutSets
    ensures db.Valid()
    ensures db.workoutSets == RemoveSet(old(db.workoutSets), id)
  {
    var target := Lookup(db.workoutSets, SetKey, id);
    if target.None? {
      return;
    }
    ghost var before := db.workoutSets;
    db.workoutSets := DeleteId(db.workoutSets, id);
    db.workoutSets := Renumber(db.workoutSets, target.value.workoutExerciseId, target.value.setNumber);
    assert db.workoutSets == RemoveSet(before, id);
    RemoveKeepsConstraints(before, id, db.workoutExercises);
  }

  /** `remove` keeps the primary key and the foreign key of `workout_sets`. */
  lemma RemoveKeepsConstraints(sets: seq<WorkoutSetRow>, id: Id, links: seq<WorkoutExerciseRow>)
    requires Unique(sets, SetKey) && SetsReferLinks(sets, links)
    ensures Unique(RemoveSet(sets, id), SetKey) && SetsReferLinks(RemoveSet(sets, id), links)
  {
    var target := Lookup(sets, SetKey, id);
    if target.Some? {
      var ti :| 0 <= ti < |sets| && sets[ti] == target.value;
      var rest := sets[..ti] + sets[ti + 1..];
      RemovedShape(sets, ti);
      DeleteKeepsConstraints(sets, ti, links);
      SameIdsKeepConstraints(rest, RemoveSet(sets, id), links);
    }
  }

  lemma {:induction false} DeleteIdAbsent(sets: seq<WorkoutSetRow>, id: Id)
    requires forall i :: 0 <= i < |sets| ==> sets[i].id != id
    ensures DeleteId(sets, id) == sets
    decreases |sets|
  {
    if sets != [] {
      DeleteIdAbsent(sets[1..], id);
      assert [sets[0]] + sets[1..] == sets;
    }
  }

  /** Under the primary key, deleting by id removes exactly the one row. */
  lemma {:induction false} DeleteIdAt(sets: seq<WorkoutSetRow>, ti: int)
    requires Unique(sets, SetKey) && 0 <= ti < |sets|
    ensures DeleteId(sets, sets[ti].id) == sets[..ti] + sets[ti + 1..]
    decreases |sets|
  {
    var id := sets[ti].id;
    var tail := sets[1..];
    if ti == 0 {
      forall i | 0 <= i < |tail| ensures tail[i].id != id {
        assert SetKey(sets[0]) != SetKey(sets[i + 1]);
      }
      DeleteIdAbsent(tail, id);
      assert sets[..0] + sets[1..] == tail;
    } else {
      assert SetKey(sets[0]) != SetKey(sets[ti]);
      assert Unique(tail, SetKey) by {
        forall i, j | 0 <= i < j < |tail| ensures SetKey(tail[i]) != SetKey(tail[j]) {
          assert tail[i] == sets[i + 1] && tail[j] == sets[j + 1];
        }
      }
      assert tail[ti - 1] == sets[ti];
      calc {
        DeleteId(sets, id);
        [sets[0]] + DeleteId(tail, id);
      == { DeleteIdAt(tail, ti - 1); }
        [sets[0]] + (tail[..ti - 1] + tail[ti..]);
      == { assert tail[..ti - 1] == sets[1..ti] && tail[ti..] == sets[ti + 1..]; }
        [sets[0]] + (sets[1..ti] + sets[ti + 1..]);
      == { assert [sets[0]] + sets[1..ti] == sets[..ti]; }
        sets[..ti] + sets[ti + 1..];
      }
    }
  }

  lemma DeleteKeepsConstraints(sets: seq<WorkoutSetRow>, ti: int, links: seq<WorkoutExerciseRow>)
    requires Unique(sets, SetKey) && 0 <= ti < |sets|
    requires SetsReferLinks(sets, links)
    ensures Unique(sets[..ti] + sets[ti + 1..], SetKey)
    ensures SetsReferLinks(sets[..ti] + sets[ti + 1..], links)
  {
    var r := sets[..ti] + sets[ti + 1..];
    forall i, j | 0 <= i < j < |r| ensures SetKey(r[i]) != SetKey(r[j]) {
      var i' := if i < ti then i else i + 1;
      var j' := if j < ti then j else j + 1;
      assert r[i] == sets[i'] && r[j] == sets[j'];
    }
    forall s | s in r ensures s.workoutExerciseId in Keys(links, WorkoutExerciseKey) {
      var i :| 0 <= i < |r| && r[i] == s;
      var i' := if i < ti then i else i + 1;
      assert r[i] == sets[i'];
      assert sets[i'] in sets;
    }
  }

  /** Under the primary key, the table after `remove` of a stored id. */
  lemma RemovedShape(sets: seq<WorkoutSetRow>, ti: int)
    requires Unique(sets, SetKey) && 0 <= ti < |sets|
    ensures RemoveSet(sets, sets[ti].id) ==
            Renumber(sets[..ti] + sets[ti + 1..], sets[ti].workoutExerciseId, sets[ti].setNumber)
  {
    LookupAt(sets, SetKey, ti);
    DeleteIdAt(sets, ti);
  }

  lemma KeysWithout(sets: seq<WorkoutSetRow>, ti: int)
    requires Unique(sets, SetKey) && 0 <= ti < |sets|
    ensures Keys(sets[..ti] + sets[ti + 1..], SetKey) == Keys(sets, SetKey) - {sets[ti].id}
  {
    var rest := sets[..ti] + sets[ti + 1..];
    forall k | k in Keys(rest, SetKey) ensures k in Keys(sets, SetKey) && k != sets[ti].id {
      var x :| x in rest && x.id == k;
      var i :| 0 <= i < |rest| && rest[i] == x;
      var i' := if i < ti then i else i + 1;
      WithoutAt(sets, ti, i);
      assert sets[i'] in sets;
      assert SetKey(sets[i']) != SetKey(sets[ti]);
    }
    forall k | k in Keys(sets, SetKey) - {sets[ti].id} ensures k in Keys(rest, SetKey) {
      var x :| x in sets && x.id == k;
      var i :| 0 <= i < |sets| && sets[i] == x;
      var i' := if i < ti then i else i - 1;
      WithoutAt(sets, ti, i');
      assert rest[i'] in rest;
    }
  }

  /** Position `i` of a table with row `ti` deleted. */
  lemma WithoutAt<T>(s: seq<T>, ti: int, i: int)
    requires 0 <= ti < |s| && 0 <= i < |s| - 1
    ensures (s[..ti] + s[ti + 1..])[i] == s[if i < ti then i else i + 1]
  {
  }

  /** `remove` of a stored set: exactly the target row is gone, and each other
      row keeps its place, moved down by one (`Shift`) when it is a later sibling. */
  lemma RemoveExact(sets: seq<WorkoutSetRow>, ti: int)
    requires Unique(sets, SetKey) && 0 <= ti < |sets|
    ensures var r := RemoveSet(sets, sets[ti].id);
      && |r| == |sets| - 1
      && forall i :: 0 <= i < |r| ==>
           r[i] == Shift(sets[if i < ti then i else i + 1], sets[ti].workoutExerciseId, sets[ti].setNumber)
    ensures Keys(RemoveSet(sets, sets[ti].id), SetKey) == Keys(sets, SetKey) - {sets[ti].id}
  {
    RemovedRows(sets, ti);
    RemovedKeys(sets, ti);
  }

  lemma RemovedRows(sets: seq<WorkoutSetRow>, ti: int)
    requires Unique(sets, SetKey) && 0 <= ti < |sets|
    ensures var r := RemoveSet(sets, sets[ti].id);
      && |r| == |sets| - 1
      && forall i :: 0 <= i < |r| ==>
           r[i] == Shift(sets[if i < ti then i else i + 1], sets[ti].workoutExerciseId, sets[ti].setNumber)
  {
    var t := sets[ti];
    RemovedShape(sets, ti);
    var rest := sets[..ti] + sets[ti + 1..];
    var r := RemoveSet(sets, t.id);
    forall i | 0 <= i < |r|
      ensures r[i] == Shift(sets[if i < ti then i else i + 1], t.workoutExerciseId, t.setNumber)
    {
      assert rest[i] == sets[if i < ti then i else i + 1];
    }
  }

  lemma RemovedKeys(sets: seq<WorkoutSetRow>, ti: int)
    requires Unique(sets, SetKey) && 0 <= ti < |sets|
    ensures Keys(RemoveSet(sets, sets[ti].id), SetKey) == Keys(sets, SetKey) - {sets[ti].id}
  {
    RemovedShape(sets, ti);
    SameIdsKeepConstraints(sets[..ti] + sets[ti + 1..], RemoveSet(sets, sets[ti].id), []);
    KeysWithout(sets, ti);
  }

  /** The numbers after closing the gap at `gap`: every number above it moves down. */
  function DecAbove(ns: seq<int>, gap: int): (r: seq<int>)
    ensures |r| == |ns| && forall i :: 0 <= i < |ns| ==> r[i] == if ns[i] > gap then ns[i] - 1 else ns[i]
  {
    seq(|ns|, i requires 0 <= i < |ns| => if ns[i] > gap then ns[i] - 1 else ns[i])
  }

  /** Taking a number out of 1..n and closing the gap leaves 1..n-1. */
  lemma CloseGap(a: seq<int>, k: int, b: seq<int>)
    requires Dense(a + [k] + b)
    ensures Dense(DecAbove(a + b, k))
  {
    var ns := a + [k] + b;
    var xs := a + b;
    var ms := DecAbove(xs, k);
    assert ns[|a|] == k;
    forall i | 0 <= i < |xs| ensures xs[i] == ns[if i < |a| then i else i + 1] && xs[i] != k {
      var i' := if i < |a| then i else i + 1;
      assert xs[i] == ns[i'];
    }
    forall i | 0 <= i < |ms| ensures 1 <= ms[i] <= |ms| {
      var i' := if i < |a| then i else i + 1;
      assert xs[i] == ns[i'];
    }
    forall i, j | 0 <= i < j < |ms| ensures ms[i] != ms[j] {
      var i' := if i < |a| then i else i + 1;
      var j' := if j < |a| then j else j + 1;
      assert xs[i] == ns[i'] && xs[j] == ns[j'];
    }
  }

  lemma DecAboveAppend(a: seq<int>, b: seq<int>, gap: int)
    ensures DecAbove(a + b, gap) == DecAbove(a, gap) + DecAbove(b, gap)
  {
  }

  lemma {:induction false} SetNumbersRenumber(sets: seq<WorkoutSetRow>, parent: Id, gap: int)
    ensures SetNumbers(Renumber(sets, parent, gap), parent) == DecAbove(SetNumbers(sets, parent), gap)
    decreases |sets|
  {
    if sets != [] {
      var r := Renumber(sets, parent, gap);
      var r' := Renumber(sets[1..], parent, gap);
      assert r[1..] == r';
      SetNumbersRenumber(sets[1..], parent, gap);
      var h := if sets[0].workoutExerciseId == parent then [sets[0]] else [];
      var h' := if sets[0].workoutExerciseId == parent then [r[0]] else [];
      assert SetsOf(r, parent) == h' + SetsOf(r', parent);
      assert SetsOf(sets, parent) == h + SetsOf(sets[1..], parent);
      NumbersAppend(h', SetsOf(r', parent));
      NumbersAppend(h, SetsOf(sets[1..], parent));
      assert Numbers(h') == DecAbove(Numbers(h), gap);
      DecAboveAppend(Numbers(h), SetNumbers(sets[1..], parent), gap);
    }
  }

  lemma {:induction false} SetsOfRenumberOther(sets: seq<WorkoutSetRow>, parent: Id, gap: int, other: Id)
    requires other != parent
    ensures SetsOf(Renumber(sets, parent, gap), other) == SetsOf(sets, other)
    decreases |sets|
  {
    if sets != [] {
      var r := Renumber(sets, parent, gap);
      assert r[1..] == Renumber(sets[1..], parent, gap);
      SetsOfRenumberOther(sets[1..], parent, gap, other);
    }
  }

  /** The rows under `parent`, split around position `ti`. */
  lemma SetsOfAround(sets: seq<WorkoutSetRow>, ti: int, parent: Id)
    requires 0 <= ti < |sets|
    ensures SetsOf(sets, parent) ==
            SetsOf(sets[..ti], parent) + SetsOf([sets[ti]], parent) + SetsOf(sets[ti + 1..], parent)
  {
    assert sets == sets[..ti] + [sets[ti]] + sets[ti + 1..];
    SetsOfAppend(sets[..ti] + [sets[ti]], sets[ti + 1..], parent);
    SetsOfAppend(sets[..ti], [sets[ti]], parent);
  }

  /** `remove` leaves the sets of every other parent exactly as they were. */
  lemma RemoveOthersUntouched(sets: seq<WorkoutSetRow>, ti: int, other: Id)
    requires Unique(sets, SetKey) && 0 <= ti < |sets|
    requires other != sets[ti].workoutExerciseId
    ensures SetsOf(RemoveSet(sets, sets[ti].id), other) == SetsOf(sets, other)
  {
    RemovedOthers(sets, ti, other);
    DeletedOthers(sets, ti, other);
  }

  /** Renumbering after the delete does not touch another parent's sets. */
  lemma RemovedOthers(sets: seq<WorkoutSetRow>, ti: int, other: Id)
    requires Unique(sets, SetKey) && 0 <= ti < |sets|
    requires other != sets[ti].workoutExerciseId
    ensures SetsOf(RemoveSet(sets, sets[ti].id), other) == SetsOf(sets[..ti] + sets[ti + 1..], other)
  {
    var t := sets[ti];
    RemovedShape(sets, ti);
    SetsOfRenumberOther(sets[..ti] + sets[ti + 1..], t.workoutExerciseId, t.setNumber, other);
  }

  /** Deleting a row of one parent leaves another parent's rows as they were. */
  lemma DeletedOthers(sets: seq<WorkoutSetRow>, ti: int, other: Id)
    requires 0 <= ti < |sets|
    requires other != sets[ti].workoutExerciseId
    ensures SetsOf(sets[..ti] + sets[ti + 1..], other) == SetsOf(sets, other)
  {
    SetsOfSingleOther(sets[ti], other);
    SetsOfAround(sets, ti, other);
    SetsOfAppend(sets[..ti], sets[ti + 1..], other);
    DropEmptyMiddle(SetsOf(sets, other), SetsOf(sets[..ti], other), SetsOf([sets[ti]], other),
                    SetsOf(sets[ti + 1..], other), SetsOf(sets[..ti] + sets[ti + 1..], other));
  }

  lemma DropEmptyMiddle<T>(whole: seq<T>, x: seq<T>, mid: seq<T>, y: seq<T>, joined: seq<T>)
    requires whole == x + mid + y && mid == [] && joined == x + y
    ensures joined == whole
  {
    assert x + [] == x;
  }

  lemma SetsOfSingleOther(t: WorkoutSetRow, other: Id)
    requires other != t.workoutExerciseId
    ensures SetsOf([t], other) == []
  {
    assert [t][1..] == [];
  }

  /** The target's parent's numbers, split around the target. */
  lemma SetNumbersAround(sets: seq<WorkoutSetRow>, ti: int)
    requires 0 <= ti < |sets|
    ensures var p := sets[ti].workoutExerciseId;
      SetNumbers(sets, p) == SetNumbers(sets[..ti], p) + [sets[ti].setNumber] + SetNumbers(sets[ti + 1..], p)
  {
    var t := sets[ti];
    var p := t.workoutExerciseId;
    var a := SetsOf(sets[..ti], p);
    var b := SetsOf(sets[ti + 1..], p);
    calc {
      SetNumbers(sets, p);
      == { SetsOfAround(sets, ti, p); assert SetsOf([t], p) == [t]; }
      Numbers(a + [t] + b);
      == { NumbersAppend(a + [t], b); }
      Numbers(a + [t]) + Numbers(b);
      == { NumbersAppend(a, [t]); }
      Numbers(a) + Numbers([t]) + Numbers(b);
    }
  }

  /** If the target's parent was numbered 1..n, it is numbered 1..n-1 afterwards. */
  lemma RemoveKeepsDense(sets: seq<WorkoutSetRow>, ti: int)
    requires Unique(sets, SetKey) && 0 <= ti < |sets|
    requires Dense(SetNumbers(sets, sets[ti].workoutExerciseId))
    ensures var p := sets[ti].workoutExerciseId;
      && Dense(SetNumbers(RemoveSet(sets, sets[ti].id), p))
      && |SetNumbers(RemoveSet(sets, sets[ti].id), p)| == |SetNumbers(sets, p)| - 1
  {
    var t := sets[ti];
    var p := t.workoutExerciseId;
    var a := sets[..ti];
    var b := sets[ti + 1..];
    calc {
      SetNumbers(RemoveSet(sets, t.id), p);
      == { RemovedShape(sets, ti); }
      SetNumbers(Renumber(a + b, p, t.setNumber), p);
      == { SetNumbersRenumber(a + b, p, t.setNumber); }
      DecAbove(SetNumbers(a + b, p), t.setNumber);
      == { SetNumbersAppend(a, b, p); }
      DecAbove(SetNumbers(a, p) + SetNumbers(b, p), t.setNumber);
    }
    SetNumbersAround(sets, ti);
    CloseGap(SetNumbers(a, p), t.setNumber, SetNumbers(b, p));
  }

  lemma RemoveKeepsDenseAt(sets: seq<WorkoutSetRow>, ti: int, q: Id)
    requires Unique(sets, SetKey) && 0 <= ti < |sets|
    requires Dense(SetNumbers(sets, q))
    ensures Dense(SetNumbers(RemoveSet(sets, sets[ti].id), q))
  {
    if q == sets[ti].workoutExerciseId {
      RemoveKeepsDense(sets, ti);
    } else {
      RemoveOthersUntouched(sets, ti, q);
    }
  }

  /** `remove` keeps every parent's numbering dense. */
  lemma RemoveKeepsAllDense(sets: seq<WorkoutSetRow>, id: Id)
    requires Unique(sets, SetKey) && AllDense(sets)
    ensures AllDense(RemoveSet(sets, id))
  {
    match Lookup(sets, SetKey, id)
    case None =>
    case Some(x) =>
      var ti :| 0 <= ti < |sets| && sets[ti] == x;
      forall q ensures Dense(SetNumbers(RemoveSet(sets, id), q)) {
        RemoveKeepsDenseAt(sets, ti, q);
      }
  }

  // ---------------------------------------------------------------------------
  // Queries

  predicate SetNumberLe(a: WorkoutSetRow, b: WorkoutSetRow) {
    a.setNumber <= b.setNumber
  }

  function SetNumberOf(s: WorkoutSetRow): int {
    s.setNumber
  }

  lemma SetNumberLeTotal()
    ensures TotalPreorder(SetNumberLe)
  {
  }

  /** `getByWorkoutExercise`: the parent's sets, ORDER BY set_number. */
  function ByWorkoutExercise(sets: seq<WorkoutSetRow>, parent: Id): (r: seq<WorkoutSetRow>)
    ensures multiset(r) == multiset(SetsOf(sets, parent))
    ensures forall s :: s in r <==> s in sets && s.workoutExerciseId == parent
    ensures forall i, j :: 0 <= i < j < |r| ==> r[i].setNumber <= r[j].setNumber
  {
    SetNumberLeTotal();
    SortByMembers(SetsOf(sets, parent), SetNumberLe);
    SortBy(SetsOf(sets, parent), SetNumberLe)
  }

  /** A non-decreasing numbering that is 1..n, each once, is 1, 2, ..., n in order. */
  lemma {:induction false} SortedDenseIsRange(ns: seq<int>)
    requires Dense(ns)
    requires forall i, j :: 0 <= i < j < |ns| ==> ns[i] <= ns[j]
    ensures forall i :: 0 <= i < |ns| ==> ns[i] == i + 1
    decreases |ns|
  {
    var n := |ns|;
    if n > 1 {
      var init := ns[..n - 1];
      forall i | 0 <= i < n - 1 ensures 1 <= init[i] <= n - 1 {
        assert ns[i] < ns[n - 1];
      }
      SortedDenseIsRange(init);
      assert ns[n - 2] == n - 1;
    }
  }

  /** On a dense numbering `getByWorkoutExercise` lists the sets numbered 1, 2, ..., n. */
  lemma ListedInOrder(sets: seq<WorkoutSetRow>, parent: Id)
    requires Dense(SetNumbers(sets, parent))
    ensures var r := ByWorkoutExercise(sets, parent);
      |r| == |SetNumbers(sets, parent)| && forall i :: 0 <= i < |r| ==> r[i].setNumber == i + 1
  {
    var r := ByWorkoutExercise(sets, parent);
    ListedDense(sets, parent);
    SortedDenseIsRange(Numbers(r));
  }

  /** The sorted listing is a rearrangement of the parent's rows, so its numbering
      is dense too. */
  lemma ListedDense(sets: seq<WorkoutSetRow>, parent: Id)
    requires Dense(SetNumbers(sets, parent))
    ensures var r := ByWorkoutExercise(sets, parent);
      && |r| == |SetNumbers(sets, parent)|
      && Dense(Numbers(r))
      && forall i, j :: 0 <= i < j < |r| ==> Numbers(r)[i] <= Numbers(r)[j]
  {
    var rows := SetsOf(sets, parent);
    var ns := SetNumbers(sets, parent);
    var r := ByWorkoutExercise(sets, parent);
    assert |r| == |rows| by {
      assert |multiset(r)| == |multiset(rows)|;
    }
    forall i, j | 0 <= i < j < |rows| ensures SetNumberOf(rows[i]) != SetNumberOf(rows[j]) {
      assert ns[i] != ns[j];
    }
    DistinctUnderPermutation(r, rows, SetNumberOf);
    NumbersWithinUnderPermutation(r, rows, |rows|);
    var rn := Numbers(r);
    forall i, j | 0 <= i < j < |rn| ensures rn[i] != rn[j] {
      assert SetNumberOf(r[i]) != SetNumberOf(r[j]);
    }
  }

  /** Numbers drawn from 1..n stay within 1..n under a rearrangement. */
  lemma NumbersWithinUnderPermutation(r: seq<WorkoutSetRow>, rows: seq<WorkoutSetRow>, n: int)
    requires multiset(r) == multiset(rows)
    requires forall k :: 0 <= k < |rows| ==> 1 <= rows[k].setNumber <= n
    ensures forall i :: 0 <= i < |r| ==> 1 <= r[i].setNumber <= n
  {
    forall i | 0 <= i < |r| ensures 1 <= r[i].setNumber <= n {
      assert r[i] in multiset(rows);
      var k :| 0 <= k < |rows| && rows[k] == r[i];
    }
  }

  /** The workout-exercise row a set hangs from (the JOIN partner). */
  function LinkOf(links: seq<WorkoutExerciseRow>, s: WorkoutSetRow): Option<WorkoutExerciseRow> {
    Lookup(links, WorkoutExerciseKey, s.workoutExerciseId)
  }

  /** `JOIN workout_exercises we ... WHERE we.workout_id = ?`. */
  function InWorkout(links: seq<WorkoutExerciseRow>, workoutId: Id): WorkoutSetRow -> bool {
    (s: WorkoutSetRow) => LinkOf(links, s).Some? && LinkOf(links, s).value.workoutId == workoutId
  }

  /** The `sort_order` of a set's workout-exercise row. */
  function PositionOf(links: seq<WorkoutExerciseRow>, s: WorkoutSetRow): int {
    match LinkOf(links, s)
    case None => 0
    case Some(l) => l.sortOrder
  }

  /** `ORDER BY we.sort_order, ws.set_number`. */
  function ByPosition(links: seq<WorkoutExerciseRow>): (WorkoutSetRow, WorkoutSetRow) -> bool {
    (a: WorkoutSetRow, b: WorkoutSetRow) =>
      PositionOf(links, a) < PositionOf(links, b) ||
      (PositionOf(links, a) == PositionOf(links, b) && a.setNumber <= b.setNumber)
  }

  lemma ByPositionTotal(links: seq<WorkoutExerciseRow>)
    ensures TotalPreorder(ByPosition(links))
  {
  }

  /** `getByWorkout`: the sets of the workout's exercise rows, by row position and
      then set number. */
  function ByWorkout(links: seq<WorkoutExerciseRow>, sets: seq<WorkoutSetRow>, workoutId: Id): (r: seq<WorkoutSetRow>)
    ensures forall s :: s in r <==>
              s in sets && LinkOf(links, s).Some? && LinkOf(links, s).value.workoutId == workoutId
    ensures multiset(r) == multiset(Filter(sets, InWorkout(links, workoutId)))
    ensures forall i, j :: 0 <= i < j < |r| ==>
              PositionOf(links, r[i]) < PositionOf(links, r[j]) ||
              (PositionOf(links, r[i]) == PositionOf(links, r[j]) && r[i].setNumber <= r[j].setNumber)
  {
    ByPositionTotal(links);
    var rows := Filter(sets, InWorkout(links, workoutId));
    SortByMembers(rows, ByPosition(links));
    SortBy(rows, ByPosition(links))
  }

  /** The `completed_at` of the workout a set belongs to; None when the set has
      no row or workout to join with. */
  function CompletedAtOf(ws: seq<WorkoutRow>, links: seq<WorkoutExerciseRow>, s: WorkoutSetRow): Option<Time> {
    match LinkOf(links, s)
    case None => None
    case Some(l) =>
      match Lookup(ws, WorkoutKey, l.workoutId)
      case None => None
      case Some(w) => w.completedAt
  }

  /** The rows `getLatestSetsForExercise` selects: sets of the exercise in a
      completed workout. */
  function OfCompletedExercise(ws: seq<WorkoutRow>, links: seq<WorkoutExerciseRow>, exerciseId: Id): WorkoutSetRow -> bool {
    (s: WorkoutSetRow) =>
         && LinkOf(links, s).Some?
         && LinkOf(links, s).value.exerciseId == exerciseId
         && Lookup(ws, WorkoutKey, LinkOf(links, s).value.workoutId).Some?
         && Lookup(ws, WorkoutKey, LinkOf(links, s).value.workoutId).value.status == Completed
  }

  /** `x` sorts strictly before `y` under `completed_at DESC`, where NULL sorts last. */
  predicate MoreRecent(x: Option<Time>, y: Option<Time>) {
    x.Some? && (y.None? || x.value > y.value)
  }

  /** `ORDER BY w.completed_at DESC, ws.set_number ASC`. */
  function RecentFirst(ws: seq<WorkoutRow>, links: seq<WorkoutExerciseRow>): (WorkoutSetRow, WorkoutSetRow) -> bool {
    (a: WorkoutSetRow, b: WorkoutSetRow) =>
      MoreRecent(CompletedAtOf(ws, links, a), CompletedAtOf(ws, links, b)) ||
      (CompletedAtOf(ws, links, a) == CompletedAtOf(ws, links, b) && a.setNumber <= b.setNumber)
  }

  lemma RecentFirstTotal(ws: seq<WorkoutRow>, links: seq<WorkoutExerciseRow>)
    ensures TotalPreorder(RecentFirst(ws, links))
  {
  }

  function SameParent(parent: Id): WorkoutSetRow -> bool {
    (s: WorkoutSetRow) => s.workoutExerciseId == parent
  }

  /** `getLatestSetsForExercise`: the candidate rows in order, then only those of
      the workout-exercise row that comes first. */
  function LatestSets(ws: seq<WorkoutRow>, links: seq<WorkoutExerciseRow>, sets: seq<WorkoutSetRow>, exerciseId: Id): seq<WorkoutSetRow> {
    RecentFirstTotal(ws, links);
    var rows := SortBy(Filter(sets, OfCompletedExercise(ws, links, exerciseId)), RecentFirst(ws, links));
    if rows == [] then [] else Filter(rows, SameParent(rows[0].workoutExerciseId))
  }

  /** What `getLatestSetsForExercise` returns: nothing when the exercise has no set
      in a completed workout; otherwise every such set of one workout-exercise
      row, and no candidate set belongs to a more recently completed workout. The
      sets come in set-number order. */
  lemma LatestSetsSpec(ws: seq<WorkoutRow>, links: seq<WorkoutExerciseRow>, sets: seq<WorkoutSetRow>, exerciseId: Id)
    ensures var r := LatestSets(ws, links, sets, exerciseId);
      var cand := OfCompletedExercise(ws, links, exerciseId);
      && (r == [] <==> forall s :: s in sets ==> !cand(s))
      && (r != [] ==>
           && (forall s :: s in r <==> s in sets && cand(s) && s.workoutExerciseId == r[0].workoutExerciseId)
           && (forall s :: s in sets && cand(s) ==>
                 !MoreRecent(CompletedAtOf(ws, links, s), CompletedAtOf(ws, links, r[0]))))
      && (forall i, j :: 0 <= i < j < |r| ==> r[i].setNumber <= r[j].setNumber)
  {
    LatestSetsEmpty(ws, links, sets, exerciseId);
    LatestSetsMembers(ws, links, sets, exerciseId);
    LatestSetsMostRecent(ws, links, sets, exerciseId);
    LatestSetsOrdered(ws, links, sets, exerciseId);
  }

  /** The candidates in `ORDER BY` order, and the first of them. */
  function Candidates(ws: seq<WorkoutRow>, links: seq<WorkoutExerciseRow>, sets: seq<WorkoutSetRow>, exerciseId: Id): (r: seq<WorkoutSetRow>)
    ensures forall s :: s in r <==> s in sets && OfCompletedExercise(ws, links, exerciseId)(s)
    ensures SortedBy(r, RecentFirst(ws, links))
    ensures r != [] ==> LatestSets(ws, links, sets, exerciseId) == Filter(r, SameParent(r[0].workoutExerciseId))
    ensures r == [] ==> LatestSets(ws, links, sets, exerciseId) == []
  {
    RecentFirstTotal(ws, links);
    var pool := Filter(sets, OfCompletedExercise(ws, links, exerciseId));
    SortByMembers(pool, RecentFirst(ws, links));
    SortBy(pool, RecentFirst(ws, links))
  }

  lemma LatestSetsEmpty(ws: seq<WorkoutRow>, links: seq<WorkoutExerciseRow>, sets: seq<WorkoutSetRow>, exerciseId: Id)
    ensures LatestSets(ws, links, sets, exerciseId) == [] <==>
              forall s :: s in sets ==> !OfCompletedExercise(ws, links, exerciseId)(s)
  {
    var rows := Candidates(ws, links, sets, exerciseId);
    if rows != [] {
      var first := rows[0];
      assert first in Filter(rows, SameParent(first.workoutExerciseId));
      assert first in sets;
    }
  }

  lemma LatestSetsMembers(ws: seq<WorkoutRow>, links: seq<WorkoutExerciseRow>, sets: seq<WorkoutSetRow>, exerciseId: Id)
    ensures var r := LatestSets(ws, links, sets, exerciseId);
      r != [] ==> forall s :: s in r <==>
        s in sets && OfCompletedExercise(ws, links, exerciseId)(s) && s.workoutExerciseId == r[0].workoutExerciseId
  {
    var rows := Candidates(ws, links, sets, exerciseId);
    var r := LatestSets(ws, links, sets, exerciseId);
    if r != [] {
      assert r[0] in r;
    }
  }

  lemma LatestSetsMostRecent(ws: seq<WorkoutRow>, links: seq<WorkoutExerciseRow>, sets: seq<WorkoutSetRow>, exerciseId: Id)
    ensures var r := LatestSets(ws, links, sets, exerciseId);
      r != [] ==> forall s :: s in sets && OfCompletedExercise(ws, links, exerciseId)(s) ==>
        !MoreRecent(CompletedAtOf(ws, links, s), CompletedAtOf(ws, links, r[0]))
  {
    var rows := Candidates(ws, links, sets, exerciseId);
    var r := LatestSets(ws, links, sets, exerciseId);
    var le := RecentFirst(ws, links);
    if r != [] {
      var first := rows[0];
      assert r[0] in r;
      assert r[0] in rows && r[0].workoutExerciseId == first.workoutExerciseId;
      forall s | s in sets && OfCompletedExercise(ws, links, exerciseId)(s)
        ensures !MoreRecent(CompletedAtOf(ws, links, s), CompletedAtOf(ws, links, r[0]))
      {
        assert s in rows;
        var k :| 0 <= k < |rows| && rows[k] == s;
        if k > 0 {
          assert le(first, s);
        }
        var m :| 0 <= m < |rows| && rows[m] == r[0];
        if m > 0 {
          assert le(first, r[0]);
        }
      }
    }
  }

  /** Sets under one workout-exercise row share its workout's completion time. */
  lemma SameRowSameTime(ws: seq<WorkoutRow>, links: seq<WorkoutExerciseRow>, a: WorkoutSetRow, b: WorkoutSetRow)
    requires a.workoutExerciseId == b.workoutExerciseId
    ensures CompletedAtOf(ws, links, a) == CompletedAtOf(ws, links, b)
  {
  }

  lemma LatestSetsOrdered(ws: seq<WorkoutRow>, links: seq<WorkoutExerciseRow>, sets: seq<WorkoutSetRow>, exerciseId: Id)
    ensures var r := LatestSets(ws, links, sets, exerciseId);
      forall i, j :: 0 <= i < j < |r| ==> r[i].setNumber <= r[j].setNumber
  {
    var rows := Candidates(ws, links, sets, exerciseId);
    var r := LatestSets(ws, links, sets, exerciseId);
    var le := RecentFirst(ws, links);
    if rows != [] {
      var first := rows[0];
      FilterSorted(rows, SameParent(first.workoutExerciseId), le);
      forall i, j | 0 <= i < j < |r| ensures r[i].setNumber <= r[j].setNumber {
        assert le(r[i], r[j]);
        assert r[i] in r && r[j] in r;
        SameRowSameTime(ws, links, r[i], r[j]);
      }
    }
  }

  /** `getLatestSetsForExercises`: one lookup per id, keeping the non-empty results. */
  method LatestSetsForExercises(db: Database, exerciseIds: seq<Id>) returns (result: map<Id, seq<WorkoutSetRow>>)
    ensures forall e :: e in result <==>
              e in exerciseIds && LatestSets(db.workouts, db.workoutExercises, db.workoutSets, e) != []
    ensures forall e :: e in result ==>
              result[e] == LatestSets(db.workouts, db.workoutExercises, db.workoutSets, e)
  {
    result := map[];
    if |exerciseIds| == 0 {
      return;
    }
    var ws, links, sets := db.workouts, db.workoutExercises, db.workoutSets;
    result := KeepNonEmpty(exerciseIds, e => LatestSets(ws, links, sets, e));
  }

  /** The loop of `getLatestSetsForExercises`: `lookup` applied to each id in
      turn, the non-empty answers kept under their id. */
  method KeepNonEmpty<V>(ids: seq<Id>, lookup: Id -> seq<V>) returns (result: map<Id, seq<V>>)
    ensures forall e :: e in result <==> e in ids && lookup(e) != []
    ensures forall e :: e in result ==> result[e] == lookup(e)
  {
    result := map[];
    var i := 0;
    while i < |ids|
      invariant 0 <= i <= |ids|
      invariant forall e :: e in result <==> e in ids[..i] && lookup(e) != []
      invariant forall e :: e in result ==> result[e] == lookup(e)
    {
      var id := ids[i];
      var found := lookup(id);
      if |found| > 0 {
        result := result[id := found];
      }
      assert ids[..i + 1] == ids[..i] + [id];
      i := i + 1;
    }
    assert ids[..i] == ids;
  }
}
