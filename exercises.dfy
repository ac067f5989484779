/** The `exercises` table: the catalogue queries, creation, partial update,
    rest-time update and soft delete (archiving), and the decoding of the stored
    `primary_muscles` JSON. */
module Exercises {
  import opened Wrappers
  import opened Text
  import opened Json
  import opened Store
  import opened Query

  // ---------------------------------------------------------------------------
  // primary_muscles

  /** The JSON array `JSON.stringify` writes for a list of muscle groups. */
  function MusclesValue(ms: seq<string>): (v: JValue)
    ensures v.JArray? && |v.items| == |ms|
    ensures forall i :: 0 <= i < |ms| ==> v.items[i] == JString(ms[i])
  {
    JArray(seq(|ms|, i requires 0 <= i < |ms| => JString(ms[i])))
  }

  function EncodeMuscles(ms: seq<string>): string {
    Encode(MusclesValue(ms))
  }

  /** `safeParseMuscles`: what `JSON.parse` returns (the cast checks nothing), or
      [] when the text is not JSON. */
  function SafeParseMuscles(text: string): (r: JValue)
    ensures Parse(text).None? ==> r == JArray([])
    ensures Parse(text).Some? ==> r == Parse(text).value
  {
    Parse(text).GetOr(JArray([]))
  }

  /** Stored muscle lists read back as written. */
  lemma SafeParseEncodedMuscles(ms: seq<string>)
    ensures SafeParseMuscles(EncodeMuscles(ms)) == MusclesValue(ms)
  {
    ParseEncode(MusclesValue(ms));
  }

  // ---------------------------------------------------------------------------
  // mapRow

  /** The mapped object of the `Exercise` interface. */
  datatype Exercise = Exercise(
    id: Id, name: string, category: string, primaryMuscles: JValue, equipment: string,
    instructions: Option<string>, restSeconds: Option<int>, isDefault: bool,
    archivedAt: Option<Time>, createdAt: Time)

  /** `mapRow`. */
  function MapExercise(row: ExerciseRow): (e: Exercise)
    ensures e.id == row.id && e.name == row.name && e.category == row.category
    ensures e.primaryMuscles == SafeParseMuscles(row.primaryMuscles)
    ensures e.isDefault <==> row.isDefault == 1
    ensures e.archivedAt == row.archivedAt && e.restSeconds == row.restSeconds
    ensures e.equipment == row.equipment && e.instructions == row.instructions && e.createdAt == row.createdAt
  {
    Exercise(row.id, row.name, row.category, SafeParseMuscles(row.primaryMuscles), row.equipment,
      row.instructions, row.restSeconds, row.isDefault == 1, row.archivedAt, row.createdAt)
  }

  function MapExercises(rows: seq<ExerciseRow>): (r: seq<Exercise>)
    ensures |r| == |rows|
    ensures forall i :: 0 <= i < |rows| ==> r[i] == MapExercise(rows[i])
  {
    seq(|rows|, i requires 0 <= i < |rows| => MapExercise(rows[i]))
  }

  lemma MapExercisesMembers(rows: seq<ExerciseRow>)
    ensures forall e :: e in rows ==> MapExercise(e) in MapExercises(rows)
    ensures forall x :: x in MapExercises(rows) ==> exists e :: e in rows && x == MapExercise(e)
  {
    var r := MapExercises(rows);
    forall e | e in rows ensures MapExercise(e) in r {
      var i :| 0 <= i < |rows| && rows[i] == e;
      assert r[i] == MapExercise(e);
    }
    forall x | x in r ensures exists e :: e in rows && x == MapExercise(e) {
      var i :| 0 <= i < |r| && r[i] == x;
      assert rows[i] in rows;
    }
  }

  // ---------------------------------------------------------------------------
  // getAll, getByCategory, search

  predicate IsActive(e: ExerciseRow) {
    e.archivedAt.None?
  }

  /** `ORDER BY name`: the column has no collation of its own, so BINARY. */
  predicate NameLe(a: ExerciseRow, b: ExerciseRow) {
    StrLe(a.name, b.name)
  }

  lemma NameLeTotal()
    ensures TotalPreorder(NameLe)
  {
    forall a: ExerciseRow, b: ExerciseRow ensures NameLe(a, b) || NameLe(b, a) {
      StrLeTotal(a.name, b.name);
    }
    forall a: ExerciseRow, b: ExerciseRow, c: ExerciseRow | NameLe(a, b) && NameLe(b, c)
      ensures NameLe(a, c)
    {
      StrLeTransitive(a.name, b.name, c.name);
    }
  }

  /** The rows `keep` selects, ordered by name and mapped. */
  function SelectByName(exs: seq<ExerciseRow>, keep: ExerciseRow -> bool): (r: seq<Exercise>)
    ensures forall e :: e in exs && keep(e) ==> MapExercise(e) in r
    ensures forall x :: x in r ==> exists e :: e in exs && keep(e) && x == MapExercise(e)
    ensures |r| == |Filter(exs, keep)|
    ensures forall i, j :: 0 <= i < j < |r| ==> StrLe(r[i].name, r[j].name)
  {
    NameLeTotal();
    var chosen := Filter(exs, keep);
    SortByMembers(chosen, NameLe);
    var sorted := SortBy(chosen, NameLe);
    MapExercisesMembers(sorted);
    MapExercises(sorted)
  }

  function ActiveRow(): ExerciseRow -> bool {
    (e: ExerciseRow) => IsActive(e)
  }

  function ActiveInCategory(category: string): ExerciseRow -> bool {
    (e: ExerciseRow) => IsActive(e) && e.category == category
  }

  function ActiveMatching(query: string): ExerciseRow -> bool {
    (e: ExerciseRow) => IsActive(e) && Like("%" + query + "%", e.name)
  }

  /** `getAll`: the exercises not archived, by name. */
  function GetAll(exs: seq<ExerciseRow>): seq<Exercise> {
    SelectByName(exs, ActiveRow())
  }

  /** `getByCategory`: as `getAll`, restricted to one category. */
  function GetByCategory(exs: seq<ExerciseRow>, category: string): seq<Exercise> {
    SelectByName(exs, ActiveInCategory(category))
  }

  /** `search`: `name LIKE '%query%'` over the exercises not archived, by name. */
  function Search(exs: seq<ExerciseRow>, query: string): seq<Exercise> {
    SelectByName(exs, ActiveMatching(query))
  }

  /** What the three catalogue queries return: non-archived rows only, by name,
      with the category and name filters as stated. */
  lemma CatalogueQueries(exs: seq<ExerciseRow>, category: string, query: string)
    ensures forall e :: e in exs ==> (MapExercise(e) in GetAll(exs) <==> e.archivedAt.None?)
    ensures forall x :: x in GetByCategory(exs, category) ==> x.category == category && x.archivedAt.None?
    ensures forall e :: e in exs && e.archivedAt.None? && e.category == category ==> MapExercise(e) in GetByCategory(exs, category)
    ensures forall x :: x in Search(exs, query) ==> x.archivedAt.None? && Like("%" + query + "%", x.name)
    ensures forall e :: e in exs && e.archivedAt.None? && Like("%" + query + "%", e.name) ==> MapExercise(e) in Search(exs, query)
  {
    forall e | e in exs && MapExercise(e) in GetAll(exs) ensures e.archivedAt.None? {
      var e' :| e' in exs && IsActive(e') && MapExercise(e) == MapExercise(e');
    }
  }

  // ---------------------------------------------------------------------------
  // SQLite's LIKE

  /** SQLite's LIKE with no ESCAPE clause: `%` matches any run of characters,
      `_` any single character, and any other character itself ignoring ASCII case. */
  predicate Like(p: string, s: string)
    decreases |p| + |s|
  {
    if p == [] then s == []
    else if p[0] == '%' then Like(p[1..], s) || (s != [] && Like(p, s[1..]))
    else s != [] && (p[0] == '_' || LowerChar(p[0]) == LowerChar(s[0])) && Like(p[1..], s[1..])
  }

  predicate NoWildcards(q: string) {
    forall k :: 0 <= k < |q| ==> q[k] != '%' && q[k] != '_'
  }

  /** `q` matches the start of `s` ignoring ASCII case. */
  predicate PrefixMatches(q: string, s: string) {
    |q| <= |s| && forall k :: 0 <= k < |q| ==> LowerChar(q[k]) == LowerChar(s[k])
  }

  lemma {:induction false} LikeTrailingPercent(s: string)
    ensures Like("%", s)
    decreases |s|
  {
    if s != [] {
      LikeTrailingPercent(s[1..]);
    }
  }

  lemma {:induction false} LikePrefix(q: string, s: string)
    requires NoWildcards(q)
    ensures Like(q + "%", s) <==> PrefixMatches(q, s)
    decreases |q|
  {
    if q == [] {
      assert q + "%" == "%";
      LikeTrailingPercent(s);
    } else {
      var p := q + "%";
      assert p[0] == q[0] && p[1..] == q[1..] + "%";
      LikePrefix(q[1..], if s == [] then s else s[1..]);
      if s != [] {
        assert PrefixMatches(q, s) <==> LowerChar(q[0]) == LowerChar(s[0]) && PrefixMatches(q[1..], s[1..]) by {
          if LowerChar(q[0]) == LowerChar(s[0]) && PrefixMatches(q[1..], s[1..]) {
            forall k | 0 <= k < |q| ensures LowerChar(q[k]) == LowerChar(s[k]) {
              if k > 0 {
                assert q[1..][k - 1] == q[k] && s[1..][k - 1] == s[k];
              }
            }
          }
          if PrefixMatches(q, s) {
            forall k | 0 <= k < |q[1..]| ensures LowerChar(q[1..][k]) == LowerChar(s[1..][k]) {
              assert q[1..][k] == q[k + 1] && s[1..][k] == s[k + 1];
            }
          }
        }
      }
    }
  }

  lemma {:induction false} LikeInfix(q: string, s: string)
    requires NoWildcards(q)
    ensures Like("%" + q + "%", s) <==> exists i :: 0 <= i <= |s| && PrefixMatches(q, s[i..])
    decreases |s|
  {
    var p := "%" + q + "%";
    assert p[0] == '%' && p[1..] == q + "%";
    LikePrefix(q, s);
    if s == [] {
      assert s[0..] == s;
    } else {
      LikeInfix(q, s[1..]);
      if exists i :: 0 <= i <= |s| && PrefixMatches(q, s[i..]) {
        var i :| 0 <= i <= |s| && PrefixMatches(q, s[i..]);
        if i > 0 {
          assert s[1..][i - 1..] == s[i..];
        } else {
          assert s[0..] == s;
        }
      }
      if exists i :: 0 <= i <= |s[1..]| && PrefixMatches(q, s[1..][i..]) {
        var i :| 0 <= i <= |s[1..]| && PrefixMatches(q, s[1..][i..]);
        assert s[1..][i..] == s[i + 1..];
      }
      assert s[0..] == s;
    }
  }

  /** For a query without `%` or `_`, `search` is a case-insensitive (ASCII)
      substring test. */
  lemma SearchIsSubstring(q: string, name: string)
    requires NoWildcards(q)
    ensures Like("%" + q + "%", name) <==> Contains(Lower(name), Lower(q))
  {
    LikeInfix(q, name);
    var ln, lq := Lower(name), Lower(q);
    forall i | 0 <= i <= |name| ensures PrefixMatches(q, name[i..]) <==> (i <= |ln| - |lq| && OccursAt(ln, lq, i)) {
      if PrefixMatches(q, name[i..]) {
        assert ln[i..i + |lq|] == lq by {
          forall k | 0 <= k < |lq| ensures ln[i..i + |lq|][k] == lq[k] {
            assert name[i..][k] == name[i + k];
          }
        }
      }
      if i <= |ln| - |lq| && OccursAt(ln, lq, i) {
        forall k | 0 <= k < |q| ensures LowerChar(q[k]) == LowerChar(name[i..][k]) {
          assert ln[i..i + |lq|][k] == lq[k];
          assert name[i..][k] == name[i + k];
        }
      }
    }
  }

  // ---------------------------------------------------------------------------
  // getById, getByIds

  /** `getById`: None for an unknown id; archived rows are found too. */
  function GetById(exs: seq<ExerciseRow>, id: Id): (r: Option<Exercise>)
    ensures r.None? <==> id !in Keys(exs, ExerciseKey)
    ensures r.Some? ==> exists e :: e in exs && e.id == id && r.value == MapExercise(e)
  {
    match Lookup(exs, ExerciseKey, id)
    case None => None
    case Some(e) => Some(MapExercise(e))
  }

  function IdIn(ids: seq<Id>): ExerciseRow -> bool {
    (e: ExerciseRow) => e.id in ids
  }

  /** `getByIds`: `WHERE id IN (...)`, each matching row once, in table order (one
      order SQLite may return, as there is no ORDER BY); [] for no ids. */
  function GetByIds(exs: seq<ExerciseRow>, ids: seq<Id>): (r: seq<Exercise>)
    ensures ids == [] ==> r == []
    ensures forall e :: e in exs && e.id in ids ==> MapExercise(e) in r
    ensures forall x :: x in r ==> x.id in ids && exists e :: e in exs && x == MapExercise(e)
    ensures |r| == |Filter(exs, IdIn(ids))|
  {
    if ids == [] then
      FilterMultiset(exs, IdIn(ids));
      assert multiset(Filter(exs, IdIn(ids))) == multiset{};
      []
    else
      var chosen := Filter(exs, IdIn(ids));
      MapExercisesMembers(chosen);
      MapExercises(chosen)
  }

  // ---------------------------------------------------------------------------
  // create

  /** The `data` argument of `create`; omitted optional fields are None. */
  datatype NewExercise = NewExercise(
    name: string, category: string, primaryMuscles: seq<string>, equipment: string,
    instructions: Option<string>, restSeconds: Option<int>)

  function NewRow(data: NewExercise, id: Id, now: Time): ExerciseRow {
    ExerciseRow(id, data.name, data.category, EncodeMuscles(data.primaryMuscles), data.equipment,
      data.instructions, data.restSeconds, 0, None, now)
  }

  /** `create`: the INSERT names `rest_seconds`, so it needs schema v2; it fails
      on a taken id or on a name equal to an existing one ignoring ASCII case. */
  method Create(db: Database, data: NewExercise, id: Id, now: Time) returns (r: Result<Exercise, DbError>)
    requires db.Valid()
    modifies db`exercises
    ensures db.Valid()
    ensures !HasExerciseRestSeconds(db.userVersion) ==> r == Failure(NoSuchColumn("exercises", "rest_seconds"))
    ensures r.Success? <==>
              && HasExerciseRestSeconds(db.userVersion)
              && id !in Keys(old(db.exercises), ExerciseKey)
              && Lower(data.name) !in Keys(old(db.exercises), ExerciseNameKey)
    ensures (HasExerciseRestSeconds(db.userVersion) && id !in Keys(old(db.exercises), ExerciseKey)
             && Lower(data.name) in Keys(old(db.exercises), ExerciseNameKey)) ==> r == Failure(UniqueName("exercises"))
    ensures r.Failure? ==> db.exercises == old(db.exercises)
    ensures r.Success? ==> db.exercises == old(db.exercises) + [NewRow(data, id, now)]
    ensures r.Success? ==> r.value == MapExercise(NewRow(data, id, now))
    ensures r.Success? ==>
              && r.value.id == id && r.value.name == data.name && r.value.category == data.category
              && r.value.equipment == data.equipment && r.value.createdAt == now
              && r.value.primaryMuscles == MusclesValue(data.primaryMuscles)
              && r.value.instructions == data.instructions && r.value.restSeconds == data.restSeconds
              && !r.value.isDefault && r.value.archivedAt.None?
  {
    if !HasExerciseRestSeconds(db.userVersion) {
      return Failure(NoSuchColumn("exercises", "rest_seconds"));
    }
    if id in Keys(db.exercises, ExerciseKey) {
      return Failure(PrimaryKey("exercises"));
    }
    if Lower(data.name) in Keys(db.exercises, ExerciseNameKey) {
      return Failure(UniqueName("exercises"));
    }
    var row := NewRow(data, id, now);
    UniqueAppend(db.exercises, row, ExerciseKey);
    UniqueAppend(db.exercises, row, ExerciseNameKey);
    KeysAppend(db.exercises, row, ExerciseKey);
    db.exercises := db.exercises + [row];
    SafeParseEncodedMuscles(data.primaryMuscles);
    return Success(MapExercise(row));
  }

  // ---------------------------------------------------------------------------
  // update, updateRestSeconds

  /** The `data` argument of `update`: None is an omitted (undefined) field;
      `instructions` and `restSeconds` may be supplied as null. */
  datatype ExercisePatch = ExercisePatch(
    name: Option<string>, category: Option<string>, primaryMuscles: Option<seq<string>>,
    equipment: Option<string>, instructions: Option<Option<string>>, restSeconds: Option<Option<int>>)

  /** No field supplied: `fields` stays empty. */
  predicate NoFields(p: ExercisePatch) {
    p.name.None? && p.category.None? && p.primaryMuscles.None? && p.equipment.None?
    && p.instructions.None? && p.restSeconds.None?
  }

  /** The row after `UPDATE exercises SET <supplied fields>`. */
  function Patched(e: ExerciseRow, p: ExercisePatch): (r: ExerciseRow)
    ensures r.id == e.id && r.isDefault == e.isDefault && r.archivedAt == e.archivedAt && r.createdAt == e.createdAt
    ensures r.name == (if p.name.Some? then p.name.value else e.name)
    ensures r.category == (if p.category.Some? then p.category.value else e.category)
    ensures r.primaryMuscles == (if p.primaryMuscles.Some? then EncodeMuscles(p.primaryMuscles.value) else e.primaryMuscles)
    ensures r.equipment == (if p.equipment.Some? then p.equipment.value else e.equipment)
    ensures r.instructions == (if p.instructions.Some? then p.instructions.value else e.instructions)
    ensures r.restSeconds == (if p.restSeconds.Some? then p.restSeconds.value else e.restSeconds)
  {
    e.(name := p.name.GetOr(e.name),
       category := p.category.GetOr(e.category),
       primaryMuscles := match p.primaryMuscles case Some(ms) => EncodeMuscles(ms) case None => e.primaryMuscles,
       equipment := p.equipment.GetOr(e.equipment),
       instructions := p.instructions.GetOr(e.instructions),
       restSeconds := p.restSeconds.GetOr(e.restSeconds))
  }

  /** With no field supplied the row is unchanged. */
  lemma PatchedNothing(e: ExerciseRow, p: ExercisePatch)
    requires NoFields(p)
    ensures Patched(e, p) == e
  {
  }

  function WithPatch(exs: seq<ExerciseRow>, id: Id, p: ExercisePatch): (r: seq<ExerciseRow>)
    ensures |r| == |exs|
    ensures forall i :: 0 <= i < |exs| ==> r[i] == if exs[i].id == id then Patched(exs[i], p) else exs[i]
  {
    seq(|exs|, i requires 0 <= i < |exs| => if exs[i].id == id then Patched(exs[i], p) else exs[i])
  }

  /** Another row already has the new name, ignoring ASCII case. */
  predicate NameTakenByOther(exs: seq<ExerciseRow>, id: Id, p: ExercisePatch) {
    p.name.Some? && exists i :: 0 <= i < |exs| && exs[i].id != id && Lower(exs[i].name) == Lower(p.name.value)
  }

  lemma WithPatchKeepsValid(exs: seq<ExerciseRow>, id: Id, p: ExercisePatch, links: seq<WorkoutExerciseRow>)
    requires Unique(exs, ExerciseKey) && Unique(exs, ExerciseNameKey) && LinksReferExercises(links, exs)
    requires !NameTakenByOther(exs, id, p)
    ensures Unique(WithPatch(exs, id, p), ExerciseKey) && Unique(WithPatch(exs, id, p), ExerciseNameKey)
    ensures LinksReferExercises(links, WithPatch(exs, id, p))
  {
    var r := WithPatch(exs, id, p);
    forall i, j | 0 <= i < j < |r| ensures ExerciseNameKey(r[i]) != ExerciseNameKey(r[j]) {
      if exs[i].id == id {
        assert exs[j].id != id;
      } else if exs[j].id == id {
        assert exs[i].id != id;
      }
    }
    forall l | l in links ensures l.exerciseId in Keys(r, ExerciseKey) {
      var e :| e in exs && e.id == l.exerciseId;
      var i :| 0 <= i < |exs| && exs[i] == e;
      assert r[i] in r;
    }
  }

  function NotFound(id: Id): string {
    "Exercise not found: " + id
  }

  /** `update`: changes exactly the supplied fields of the row and returns it.
      With no field supplied nothing is written. An unknown id throws; a new name
      another row has (ignoring case) breaks the unique index; `rest_seconds`
      needs schema v2. */
  method Update(db: Database, id: Id, p: ExercisePatch) returns (r: Result<Exercise, DbError>)
    requires db.Valid()
    modifies db`exercises
    ensures db.Valid()
    ensures r.Success? <==>
              && id in Keys(old(db.exercises), ExerciseKey)
              && (NoFields(p) || (
                    && (p.restSeconds.Some? ==> HasExerciseRestSeconds(db.userVersion))
                    && !NameTakenByOther(old(db.exercises), id, p)))
    ensures (id !in Keys(old(db.exercises), ExerciseKey)
             && (p.restSeconds.Some? ==> HasExerciseRestSeconds(db.userVersion))) ==> r == Failure(Thrown(NotFound(id)))
    ensures r.Failure? || NoFields(p) ==> db.exercises == old(db.exercises)
    ensures r.Success? ==> db.exercises == WithPatch(old(db.exercises), id, p)
    ensures r.Success? ==> exists e :: e in old(db.exercises) && e.id == id && r.value == MapExercise(Patched(e, p))
  {
    if NoFields(p) {
      var found := Lookup(db.exercises, ExerciseKey, id);
      if found.None? {
        return Failure(Thrown(NotFound(id)));
      }
      PatchedNothing(found.value, p);
      return Success(MapExercise(found.value));
    }
    if p.restSeconds.Some? && !HasExerciseRestSeconds(db.userVersion) {
      return Failure(NoSuchColumn("exercises", "rest_seconds"));
    }
    var found := Lookup(db.exercises, ExerciseKey, id);
    if found.None? {
      assert WithPatch(db.exercises, id, p) == db.exercises;
      return Failure(Thrown(NotFound(id)));
    }
    if NameTakenByOther(db.exercises, id, p) {
      return Failure(UniqueName("exercises"));
    }
    r := WritePatch(db, id, p, found.value);
  }

  /** The write of a patch that passed every check: row `e` of that id changes. */
  method WritePatch(db: Database, id: Id, p: ExercisePatch, e: ExerciseRow) returns (r: Result<Exercise, DbError>)
    requires db.Valid()
    requires e in db.exercises && e.id == id
    requires !NameTakenByOther(db.exercises, id, p)
    modifies db`exercises
    ensures db.Valid()
    ensures db.exercises == WithPatch(old(db.exercises), id, p)
    ensures r == Success(MapExercise(Patched(e, p)))
  {
    WithPatchKeepsValid(db.exercises, id, p, db.workoutExercises);
    db.exercises := WithPatch(db.exercises, id, p);
    return Success(MapExercise(Patched(e, p)));
  }

  function RestOnly(restSeconds: Option<int>): ExercisePatch {
    ExercisePatch(None, None, None, None, None, Some(restSeconds))
  }

  /** `updateRestSeconds`: changes only `rest_seconds` of the row; an unknown id
      changes nothing. The column exists from schema v2 on. */
  method UpdateRestSeconds(db: Database, id: Id, restSeconds: Option<int>) returns (r: Result<(), DbError>)
    requires db.Valid()
    modifies db`exercises
    ensures db.Valid()
    ensures r.Success? <==> HasExerciseRestSeconds(db.userVersion)
    ensures r.Failure? ==> r.error == NoSuchColumn("exercises", "rest_seconds") && db.exercises == old(db.exercises)
    ensures r.Success? ==> db.exercises == WithPatch(old(db.exercises), id, RestOnly(restSeconds))
  {
    if !HasExerciseRestSeconds(db.userVersion) {
      return Failure(NoSuchColumn("exercises", "rest_seconds"));
    }
    WithPatchKeepsValid(db.exercises, id, RestOnly(restSeconds), db.workoutExercises);
    db.exercises := WithPatch(db.exercises, id, RestOnly(restSeconds));
    return Success(());
  }

  // ---------------------------------------------------------------------------
  // archive

  function Archived(exs: seq<ExerciseRow>, id: Id, now: Time): (r: seq<ExerciseRow>)
    ensures |r| == |exs|
    ensures forall i :: 0 <= i < |exs| ==> r[i] == if exs[i].id == id then exs[i].(archivedAt := Some(now)) else exs[i]
  {
    seq(|exs|, i requires 0 <= i < |exs| => if exs[i].id == id then exs[i].(archivedAt := Some(now)) else exs[i])
  }

  /** `archive`: a soft delete that stamps `archived_at` and keeps the row. */
  method Archive(db: Database, id: Id, now: Time)
    requires db.Valid()
    modifies db`exercises
    ensures db.Valid()
    ensures db.exercises == Archived(old(db.exercises), id, now)
  {
    var r := Archived(db.exercises, id, now);
    forall l | l in db.workoutExercises ensures l.exerciseId in Keys(r, ExerciseKey) {
      var e :| e in db.exercises && e.id == l.exerciseId;
      var i :| 0 <= i < |db.exercises| && db.exercises[i] == e;
      assert r[i] in r;
    }
    db.exercises := r;
  }

  /** After `archive` the exercise leaves the catalogue queries, while `getById`
      still finds it, stamped. */
  lemma ArchiveHides(exs: seq<ExerciseRow>, id: Id, now: Time, category: string, query: string)
    requires id in Keys(exs, ExerciseKey)
    ensures forall x :: x in GetAll(Archived(exs, id, now)) ==> x.id != id
    ensures forall x :: x in GetByCategory(Archived(exs, id, now), category) ==> x.id != id
    ensures forall x :: x in Search(Archived(exs, id, now), query) ==> x.id != id
    ensures GetById(Archived(exs, id, now), id).Some?
    ensures GetById(Archived(exs, id, now), id).value.archivedAt == Some(now)
  {
    var r := Archived(exs, id, now);
    ArchivedInactive(exs, id, now);
    HiddenFromSelect(r, ActiveRow(), id);
    HiddenFromSelect(r, ActiveInCategory(category), id);
    HiddenFromSelect(r, ActiveMatching(query), id);
    ArchivedFound(exs, id, now);
  }

  lemma ArchivedInactive(exs: seq<ExerciseRow>, id: Id, now: Time)
    ensures forall e :: e in Archived(exs, id, now) && e.id == id ==> !IsActive(e)
  {
    var r := Archived(exs, id, now);
    forall e | e in r && e.id == id ensures !IsActive(e) {
      var i :| 0 <= i < |r| && r[i] == e;
    }
  }

  lemma ArchivedFound(exs: seq<ExerciseRow>, id: Id, now: Time)
    requires id in Keys(exs, ExerciseKey)
    ensures GetById(Archived(exs, id, now), id).Some?
    ensures GetById(Archived(exs, id, now), id).value.archivedAt == Some(now)
  {
    var r := Archived(exs, id, now);
    var e :| e in exs && e.id == id;
    var i :| 0 <= i < |exs| && exs[i] == e;
    assert r[i] in r;
  }

  /** A selection of non-archived rows never includes a row with `id` once every
      row with that id is archived. */
  lemma HiddenFromSelect(rows: seq<ExerciseRow>, keep: ExerciseRow -> bool, id: Id)
    requires forall e :: keep(e) ==> IsActive(e)
    requires forall e :: e in rows && e.id == id ==> !IsActive(e)
    ensures forall x :: x in SelectByName(rows, keep) ==> x.id != id
  {
    forall x | x in SelectByName(rows, keep) ensures x.id != id {
      var e :| e in rows && keep(e) && x == MapExercise(e);
    }
  }
}
