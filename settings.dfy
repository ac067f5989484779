/** The settings cache: the unit system and the default rest time, read from
    the `settings` key/value table once and written through on every change.
    The platform's locale identifier is a parameter. */
module Settings {
  import opened Wrappers
  import opened Text
  import opened Config
  import opened Store

  datatype Units = Metric | Imperial

  /** The text a unit system is stored as. */
  function UnitsName(u: Units): (s: string)
    ensures s == "metric" <==> u == Metric
    ensures s == "imperial" <==> u == Imperial
  {
    match u
    case Metric => "metric"
    case Imperial => "imperial"
  }

  /** A stored value the cache accepts as a unit system. */
  function UnitsOf(value: Option<string>): (r: Option<Units>)
    ensures r.Some? <==> value == Some("metric") || value == Some("imperial")
    ensures r.Some? ==> value == Some(UnitsName(r.value))
  {
    if value == Some("metric") then Some(Metric)
    else if value == Some("imperial") then Some(Imperial)
    else None
  }

  const UnitsKey: string := "units"
  const RestKey: string := "defaultRestSeconds"

  /** The locale prefixes of the countries that use imperial units. */
  const ImperialLocales: seq<string> := ["en_US", "en_MM", "en_LR", "en-US", "en-MM", "en-LR"]

  /** `getLocaleDefaultUnits`, given the identifier the platform reports ('en'
      when it reports none). */
  function LocaleDefaultUnits(locale: string): (u: Units)
    ensures u == Imperial <==> exists i :: 0 <= i < |ImperialLocales| && ImperialLocales[i] <= locale
  {
    if exists i :: 0 <= i < |ImperialLocales| && ImperialLocales[i] <= locale then Imperial else Metric
  }

  /** `readSetting`: the stored value, or null when the key has no row. */
  function ReadSetting(table: map<string, string>, key: string): (r: Option<string>)
    ensures r.Some? <==> key in table
    ensures r.Some? ==> r.value == table[key]
  {
    if key in table then Some(table[key]) else None
  }

  /** `writeSetting`: INSERT OR REPLACE, so the last value written for a key wins. */
  method WriteSetting(db: Database, key: string, value: string)
    modifies db`settings
    ensures db.settings == old(db.settings)[key := value]
    ensures ReadSetting(db.settings, key) == Some(value)
    ensures forall k :: k != key ==> ReadSetting(db.settings, k) == ReadSetting(old(db.settings), k)
  {
    db.settings := db.settings[key := value];
  }

  /** JavaScript truthiness of a read value: absent and "" are both false. */
  predicate Present(value: Option<string>) {
    value.Some? && value.value != ""
  }

  /** What `loadSettings` decides: the cached units, the cached rest time (None
      stands for the NaN `parseInt` gives on text without digits), and the
      table after the defaults are written back. */
  datatype Loaded = Loaded(units: Units, restSeconds: Option<int>, table: map<string, string>)

  function Load(table: map<string, string>, locale: string): (r: Loaded)
    ensures UnitsOf(ReadSetting(table, UnitsKey)).Some? ==> r.units == UnitsOf(ReadSetting(table, UnitsKey)).value
    ensures UnitsOf(ReadSetting(table, UnitsKey)).None? ==> r.units == LocaleDefaultUnits(locale)
    ensures Present(ReadSetting(table, RestKey)) ==> r.restSeconds == ParseIntDecimal(table[RestKey])
    ensures !Present(ReadSetting(table, RestKey)) ==> r.restSeconds == Some(StrengthRestSeconds)
    ensures forall k :: k != UnitsKey && k != RestKey ==> ReadSetting(r.table, k) == ReadSetting(table, k)
    ensures ReadSetting(r.table, UnitsKey) ==
              if Present(ReadSetting(table, UnitsKey)) then ReadSetting(table, UnitsKey) else Some(UnitsName(r.units))
    ensures ReadSetting(r.table, RestKey) ==
              if Present(ReadSetting(table, RestKey)) then ReadSetting(table, RestKey) else Some("90")
  {
    var unitsVal := ReadSetting(table, UnitsKey);
    var restVal := ReadSetting(table, RestKey);
    var units := match UnitsOf(unitsVal) case Some(u) => u case None => LocaleDefaultUnits(locale);
    var rest := if Present(restVal) then ParseIntDecimal(restVal.value) else Some(StrengthRestSeconds);
    var t1 := if Present(unitsVal) then table else table[UnitsKey := UnitsName(units)];
    var t2 := if Present(restVal) then t1 else t1[RestKey := IntToString(StrengthRestSeconds)];
    assert IntToString(StrengthRestSeconds) == "90" by {
      assert NatToString(90) == NatToString(9) + [DigitChar(0)];
    }
    Loaded(units, rest, t2)
  }

  /** Loading again, with the same locale, finds what the first load left and
      decides the same. */
  lemma LoadIsIdempotent(table: map<string, string>, locale: string)
    ensures Load(Load(table, locale).table, locale) == Load(table, locale)
  {
    var first := Load(table, locale);
    var second := Load(first.table, locale);
    if !Present(ReadSetting(table, UnitsKey)) {
      assert ReadSetting(first.table, UnitsKey) == Some(UnitsName(first.units));
    }
    if !Present(ReadSetting(table, RestKey)) {
      assert ParseIntDecimal("90") == Some(90) by {
        ParseIntOfIntToString(90);
      }
    }
    assert second.units == first.units;
    assert second.restSeconds == first.restSeconds;
    assert second.table == first.table;
  }

  /** A value written by an update is what the next load caches. */
  lemma UpdateThenLoad(table: map<string, string>, locale: string, u: Units, seconds: int)
    ensures Load(table[UnitsKey := UnitsName(u)], locale).units == u
    ensures Load(table[RestKey := IntToString(seconds)], locale).restSeconds == Some(seconds)
  {
    ParseIntOfIntToString(seconds);
    assert IntToString(seconds) != "";
  }

  /** The zustand settings store. */
  class SettingsStore {
    var units: Units
    /** None is NaN. */
    var defaultRestSeconds: Option<int>
    var isLoaded: bool

    /** Metric, 90 seconds, not loaded yet. */
    constructor ()
      ensures units == Metric && UnitsName(units) == DefaultUnits
      ensures defaultRestSeconds == Some(StrengthRestSeconds) && !isLoaded
    {
      units := Metric;
      defaultRestSeconds := Some(StrengthRestSeconds);
      isLoaded := false;
    }

    /** `loadSettings`. */
    method LoadSettings(db: Database, locale: string)
      modifies this, db`settings
      ensures units == Load(old(db.settings), locale).units
      ensures defaultRestSeconds == Load(old(db.settings), locale).restSeconds
      ensures db.settings == Load(old(db.settings), locale).table
      ensures isLoaded
    {
      var unitsVal := ReadSetting(db.settings, UnitsKey);
      var restVal := ReadSetting(db.settings, RestKey);
      var chosen := match UnitsOf(unitsVal) case Some(u) => u case None => LocaleDefaultUnits(locale);
      var rest := if Present(restVal) then ParseIntDecimal(restVal.value) else Some(StrengthRestSeconds);
      if !Present(unitsVal) {
        WriteSetting(db, UnitsKey, UnitsName(chosen));
      }
      if !Present(restVal) {
        WriteSetting(db, RestKey, IntToString(StrengthRestSeconds));
      }
      units, defaultRestSeconds, isLoaded := chosen, rest, true;
    }

    /** `updateUnits`: the row first, then the cache; the rest time is untouched. */
    method UpdateUnits(db: Database, u: Units)
      modifies this, db`settings
      ensures db.settings == old(db.settings)[UnitsKey := UnitsName(u)]
      ensures units == u
      ensures defaultRestSeconds == old(defaultRestSeconds) && isLoaded == old(isLoaded)
    {
      WriteSetting(db, UnitsKey, UnitsName(u));
      units := u;
    }

    /** `updateDefaultRestSeconds`: the row first, then the cache; units untouched. */
    method UpdateDefaultRestSeconds(db: Database, seconds: int)
      modifies this, db`settings
      ensures db.settings == old(db.settings)[RestKey := IntToString(seconds)]
      ensures defaultRestSeconds == Some(seconds)
      ensures units == old(units) && isLoaded == old(isLoaded)
    {
      WriteSetting(db, RestKey, IntToString(seconds));
      defaultRestSeconds := Some(seconds);
    }
  }
}
