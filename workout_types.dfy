/** The read-only queries over `workout_types` and the decoding of a type's
    stored `fields` JSON. */
module WorkoutTypes {
  import opened Wrappers
  import opened Text
  import opened Json
  import opened Store
  import opened Query

  /** One entry of a type's `fields` list; `kind` is the TypeScript `type`
      property ('number', 'duration', 'distance' or 'text'). */
  datatype FieldDefinition = FieldDefinition(name: string, kind: string, unit: Option<string>, required: bool)

  /** The object `JSON.stringify` writes for a definition: keys in declaration
      order, `unit` only when present. */
  function FieldValue(f: FieldDefinition): JValue {
    JObject(
      [Member("name", JString(f.name)), Member("type", JString(f.kind))]
      + (match f.unit case Some(u) => [Member("unit", JString(u))] case None => [])
      + [Member("required", JBool(f.required))])
  }

  function FieldsValue(fs: seq<FieldDefinition>): (v: JValue)
    ensures v.JArray? && |v.items| == |fs|
    ensures forall i :: 0 <= i < |fs| ==> v.items[i] == FieldValue(fs[i])
  {
    JArray(seq(|fs|, i requires 0 <= i < |fs| => FieldValue(fs[i])))
  }

  /** `JSON.stringify(fields)`, as the seeder stores it. */
  function EncodeFields(fs: seq<FieldDefinition>): string {
    Encode(FieldsValue(fs))
  }

  /** Reads a definition back from its JSON object. */
  function DecodeField(v: JValue): Option<FieldDefinition> {
    match v
    case JObject(ms) =>
      if |ms| == 3 && ms[0].key == "name" && ms[0].value.JString? && ms[1].key == "type"
         && ms[1].value.JString? && ms[2].key == "required" && ms[2].value.JBool? then
        Some(FieldDefinition(ms[0].value.s, ms[1].value.s, None, ms[2].value.b))
      else if |ms| == 4 && ms[0].key == "name" && ms[0].value.JString? && ms[1].key == "type"
         && ms[1].value.JString? && ms[2].key == "unit" && ms[2].value.JString?
         && ms[3].key == "required" && ms[3].value.JBool? then
        Some(FieldDefinition(ms[0].value.s, ms[1].value.s, Some(ms[2].value.s), ms[3].value.b))
      else None
    case _ => None
  }

  function DecodeFieldList(items: seq<JValue>): Option<seq<FieldDefinition>> {
    if items == [] then Some([])
    else
      match DecodeField(items[0])
      case None => None
      case Some(f) =>
        match DecodeFieldList(items[1..])
        case None => None
        case Some(rest) => Some([f] + rest)
  }

  lemma DecodeFieldValue(f: FieldDefinition)
    ensures DecodeField(FieldValue(f)) == Some(f)
  {
  }

  lemma {:induction false} DecodeFieldsValue(fs: seq<FieldDefinition>)
    ensures DecodeFieldList(FieldsValue(fs).items) == Some(fs)
  {
    if fs != [] {
      DecodeFieldValue(fs[0]);
      DecodeFieldsValue(fs[1..]);
      assert FieldsValue(fs).items[1..] == FieldsValue(fs[1..]).items;
      assert [fs[0]] + fs[1..] == fs;
    }
  }

  /** `safeParseFields`: whatever `JSON.parse` returns (the `as` cast checks
      nothing), or [] when the text is not JSON. */
  function SafeParseFields(text: string): (r: JValue)
    ensures Parse(text).None? ==> r == JArray([])
    ensures Parse(text).Some? ==> r == Parse(text).value
  {
    Parse(text).GetOr(JArray([]))
  }

  /** Stored definitions come back as they were written. */
  lemma SafeParseEncodedFields(fs: seq<FieldDefinition>)
    ensures SafeParseFields(EncodeFields(fs)) == FieldsValue(fs)
    ensures DecodeFieldList(SafeParseFields(EncodeFields(fs)).items) == Some(fs)
  {
    ParseEncode(FieldsValue(fs));
    DecodeFieldsValue(fs);
  }

  /** The mapped object of the `WorkoutType` interface. */
  datatype WorkoutType = WorkoutType(id: Id, name: string, fields: JValue, isDefault: bool, createdAt: Time)

  /** `mapRow`. */
  function MapType(row: WorkoutTypeRow): (t: WorkoutType)
    ensures t.id == row.id && t.name == row.name && t.createdAt == row.createdAt
    ensures t.isDefault <==> row.isDefault == 1
    ensures t.fields == SafeParseFields(row.fields)
  {
    WorkoutType(row.id, row.name, SafeParseFields(row.fields), row.isDefault == 1, row.createdAt)
  }

  function MapTypes(rows: seq<WorkoutTypeRow>): (r: seq<WorkoutType>)
    ensures |r| == |rows|
    ensures forall i :: 0 <= i < |rows| ==> r[i] == MapType(rows[i])
  {
    seq(|rows|, i requires 0 <= i < |rows| => MapType(rows[i]))
  }

  /** `ORDER BY name` under BINARY collation. */
  predicate TypeNameLe(a: WorkoutTypeRow, b: WorkoutTypeRow) {
    StrLe(a.name, b.name)
  }

  lemma TypeNameLeTotal()
    ensures TotalPreorder(TypeNameLe)
  {
    forall a: WorkoutTypeRow, b: WorkoutTypeRow ensures TypeNameLe(a, b) || TypeNameLe(b, a) {
      StrLeTotal(a.name, b.name);
    }
    forall a: WorkoutTypeRow, b: WorkoutTypeRow, c: WorkoutTypeRow | TypeNameLe(a, b) && TypeNameLe(b, c)
      ensures TypeNameLe(a, c)
    {
      StrLeTransitive(a.name, b.name, c.name);
    }
  }

  /** The rows, ordered by name. */
  function SortedByName(types: seq<WorkoutTypeRow>): (r: seq<WorkoutTypeRow>)
    ensures |r| == |types|
    ensures forall t :: t in r <==> t in types
    ensures forall i, j :: 0 <= i < j < |r| ==> StrLe(r[i].name, r[j].name)
  {
    TypeNameLeTotal();
    SortByMembers(types, TypeNameLe);
    SortBy(types, TypeNameLe)
  }

  /** Mapping keeps exactly the mapped rows. */
  lemma MapTypesMembers(rows: seq<WorkoutTypeRow>)
    ensures forall t :: t in rows ==> MapType(t) in MapTypes(rows)
    ensures forall x :: x in MapTypes(rows) ==> exists t :: t in rows && x == MapType(t)
  {
    var r := MapTypes(rows);
    forall t | t in rows ensures MapType(t) in r {
      var i :| 0 <= i < |rows| && rows[i] == t;
      assert r[i] == MapType(t);
    }
    forall x | x in r ensures exists t :: t in rows && x == MapType(t) {
      var i :| 0 <= i < |r| && r[i] == x;
      assert rows[i] in rows;
    }
  }

  /** `getAll`: every type, ordered by name. */
  function GetAll(types: seq<WorkoutTypeRow>): (r: seq<WorkoutType>)
    ensures |r| == |types|
    ensures forall t :: t in types ==> MapType(t) in r
    ensures forall x :: x in r ==> exists t :: t in types && x == MapType(t)
    ensures forall i, j :: 0 <= i < j < |r| ==> StrLe(r[i].name, r[j].name)
  {
    var sorted := SortedByName(types);
    MapTypesMembers(sorted);
    MapTypes(sorted)
  }

  /** `getById`: None for an unknown id. */
  function GetById(types: seq<WorkoutTypeRow>, id: Id): (r: Option<WorkoutType>)
    ensures r.None? <==> id !in Keys(types, TypeKey)
    ensures r.Some? ==> exists t :: t in types && t.id == id && r.value == MapType(t)
  {
    match Lookup(types, TypeKey, id)
    case None => None
    case Some(t) => Some(MapType(t))
  }

  predicate IsDefaultRow(t: WorkoutTypeRow) {
    t.isDefault == 1
  }

  /** `getDefaults`: exactly the rows flagged `is_default = 1`, ordered by name. */
  function GetDefaults(types: seq<WorkoutTypeRow>): (r: seq<WorkoutType>)
    ensures forall t :: t in types && t.isDefault == 1 ==> MapType(t) in r
    ensures forall x :: x in r ==> x.isDefault && exists t :: t in types && x == MapType(t)
    ensures |r| == |Filter(types, IsDefaultRow)|
    ensures forall i, j :: 0 <= i < j < |r| ==> StrLe(r[i].name, r[j].name)
  {
    var sorted := SortedByName(Filter(types, IsDefaultRow));
    MapTypesMembers(sorted);
    MapTypes(sorted)
  }
}
