/** The climate dataset catalogue: three built-in datasets, custom ones loaded
    from and saved to a configuration file, and the lookups the analysis and
    the exporter make in it. The configuration file itself is not modelled:
    its parsed contents are an input and the contents to be written an output. */
module DataCatalog {
  import opened Outcomes
  import opened OrderedDicts

  datatype DatasetConfig = DatasetConfig(
    id: string,
    precipKey: string,
    tmaxKey: string,
    tminKey: string,
    precipConversion: real,
    tempConversion: real,
    startYear: int,
    endYear: int,
    displayName: string,
    description: string,
    regionCoverage: string,
    spatialResolution: string,
    temporalResolution: string)

  /** The keys of the built-in datasets, in their dict order. */
  const DefaultKeys: seq<string> := ["ERA5", "PRISM", "DAYMET"]

  /** The built-in datasets. Their end year defaults to the current year,
      which is a parameter here. */
  function DefaultDatasets(currentYear: int): map<string, DatasetConfig> {
    map[
      "ERA5" := DatasetConfig(
        "ECMWF/ERA5_LAND/DAILY_AGGR", "total_precipitation_sum",
        "temperature_2m_max", "temperature_2m_min", 1000.0, -273.15, 1980,
        currentYear, "ERA5 Land Reanalysis",
        "High resolution reanalysis dataset for land surface variables",
        "Global", "0.1° (~11km)", "daily"),
      "PRISM" := DatasetConfig(
        "OREGONSTATE/PRISM/AN81d", "ppt", "tmax", "tmin", 1.0, 0.0, 1981,
        currentYear, "PRISM Climate Data",
        "High-resolution climate data for the contiguous United States",
        "Contiguous United States", "4km", "daily"),
      "DAYMET" := DatasetConfig(
        "NASA/ORNL/DAYMET_V4", "prcp", "tmax", "tmin", 1.0, 0.0, 1980,
        currentYear, "DAYMET Version 4",
        "Daily surface weather and climatological data",
        "North America", "1km", "daily")
    ]
  }

  lemma DefaultsIndexed(currentYear: int)
    ensures Indexes(DefaultKeys, DefaultDatasets(currentYear))
    ensures forall k :: k in DefaultKeys ==> DefaultDatasets(currentYear)[k].endYear == currentYear
  {
  }

  /** The custom file's entries in file order: a key and the configuration built
      from its value, or None when building it raises. Loading stops at the first
      entry that raises; the entries before it stay loaded. */
  function Load(keys: seq<string>, m: map<string, DatasetConfig>,
                entries: seq<(string, Option<DatasetConfig>)>): (r: (seq<string>, map<string, DatasetConfig>))
    decreases |entries|
  {
    if |entries| == 0 || entries[0].1.None? then (keys, m)
    else Load(Put(keys, entries[0].0), m[entries[0].0 := entries[0].1.value], entries[1..])
  }

  /** Loading never removes or reorders a dataset, keeps the key order listing
      the datasets, and loads every entry before the first one that raises. */
  lemma {:induction false} LoadFacts(keys: seq<string>, m: map<string, DatasetConfig>,
                                     entries: seq<(string, Option<DatasetConfig>)>, i: nat)
    requires Indexes(keys, m)
    requires i <= |entries|
    requires forall j :: 0 <= j < i ==> entries[j].1.Some?
    ensures Indexes(Load(keys, m, entries).0, Load(keys, m, entries).1)
    ensures keys <= Load(keys, m, entries).0
    ensures forall k :: k in m ==> k in Load(keys, m, entries).1
    ensures forall j :: 0 <= j < i ==> entries[j].0 in Load(keys, m, entries).1
    decreases |entries|
  {
    if |entries| > 0 && entries[0].1.Some? {
      var k, v := entries[0].0, entries[0].1.value;
      PutIndexes(keys, m, k, v);
      var i' := if i == 0 then 0 else i - 1;
      forall j | 0 <= j < i'
        ensures entries[1..][j].1.Some?
      {
        assert entries[1..][j] == entries[j + 1];
      }
      LoadFacts(Put(keys, k), m[k := v], entries[1..], i');
      var r := Load(keys, m, entries);
      assert r == Load(Put(keys, k), m[k := v], entries[1..]);
      forall j | 0 <= j < i
        ensures entries[j].0 in r.1
      {
        if j > 0 {
          assert entries[j] == entries[1..][j - 1];
        }
      }
    }
  }

  /** The entries `_save_custom_datasets` writes, in dict order: every dataset
      whose key is not a built-in one. */
  function NonDefault(keys: seq<string>, m: map<string, DatasetConfig>): seq<(string, DatasetConfig)>
  {
    if |keys| == 0 then []
    else
      var k := keys[|keys| - 1];
      NonDefault(keys[..|keys| - 1], m) + (if k !in DefaultKeys && k in m then [(k, m[k])] else [])
  }

  /** `c` holds exactly the non-built-in datasets of `m` listed in `keys`,
      with their configurations, each once. */
  ghost predicate SavedExactly(c: seq<(string, DatasetConfig)>, keys: seq<string>, m: map<string, DatasetConfig>) {
    (forall i :: 0 <= i < |c| ==>
       c[i].0 in keys && c[i].0 in m && c[i].0 !in DefaultKeys && c[i].1 == m[c[i].0])
    && (forall k :: k in keys && k in m && k !in DefaultKeys ==> exists i :: 0 <= i < |c| && c[i].0 == k)
    && (forall i, j :: 0 <= i < j < |c| ==> c[i].0 != c[j].0)
  }

  /** The saved entries are exactly the non-built-in datasets with their
      configurations, each once, in dict order. */
  lemma {:induction false} NonDefaultExact(keys: seq<string>, m: map<string, DatasetConfig>)
    requires Distinct(keys)
    ensures SavedExactly(NonDefault(keys, m), keys, m)
  {
    if |keys| > 0 {
      var init, k := keys[..|keys| - 1], keys[|keys| - 1];
      assert Distinct(init);
      NonDefaultExact(init, m);
      var c0 := NonDefault(init, m);
      var c := NonDefault(keys, m);
      assert c == c0 + (if k !in DefaultKeys && k in m then [(k, m[k])] else []);
      assert keys == init + [k];
      assert k !in init;
      forall x | x in keys && x in m && x !in DefaultKeys
        ensures exists i :: 0 <= i < |c| && c[i].0 == x
      {
        if x == k {
          assert c[|c| - 1].0 == x;
        } else {
          assert x in init;
          var i :| 0 <= i < |c0| && c0[i].0 == x;
          assert c[i] == c0[i];
        }
      }
      forall i | 0 <= i < |c|
        ensures c[i].0 in keys && c[i].0 in m && c[i].0 !in DefaultKeys && c[i].1 == m[c[i].0]
      {
        if i < |c0| {
          assert c[i] == c0[i];
        } else {
          assert c[i] == (k, m[k]);
        }
      }
      forall i, j | 0 <= i < j < |c|
        ensures c[i].0 != c[j].0
      {
        if j < |c0| {
          assert c[i] == c0[i] && c[j] == c0[j];
        } else {
          assert c[i] == c0[i];
        }
      }
    }
  }

  /** What `get_dataset_info` reports. */
  datatype DatasetInfo = DatasetInfo(
    name: string,
    displayName: string,
    description: string,
    regionCoverage: string,
    spatialResolution: string,
    temporalResolution: string,
    yearRange: (int, int),
    earthEngineId: string)

  /** A date that `strptime(..., "%Y-%m-%d")` accepted. */
  datatype Date = Date(year: int, month: int, day: int)

  predicate ValidDate(d: Date) {
    1 <= d.month <= 12 && 1 <= d.day <= 31
  }

  /** `start > end` on two midnight datetimes: year, then month, then day. */
  predicate Later(a: Date, b: Date) {
    a.year > b.year
    || (a.year == b.year && a.month > b.month)
    || (a.year == b.year && a.month == b.month && a.day > b.day)
  }

  /** A day number that grows with the calendar. */
  function DayKey(d: Date): int {
    d.year * 372 + (d.month - 1) * 31 + (d.day - 1)
  }

  /** `Later` is the order of the calendar: it agrees with the day number. */
  lemma LaterIsCalendarOrder(a: Date, b: Date)
    requires ValidDate(a) && ValidDate(b)
    ensures Later(a, b) <==> DayKey(a) > DayKey(b)
  {
    var ra, rb := (a.month - 1) * 31 + (a.day - 1), (b.month - 1) * 31 + (b.day - 1);
    assert 0 <= ra < 372 && 0 <= rb < 372;
    if a.year > b.year {
      assert DayKey(a) >= (b.year + 1) * 372;
    } else if a.year < b.year {
      assert DayKey(b) >= (a.year + 1) * 372;
    }
  }

  function NotFound(name: string): string {
    "Dataset not found: " + name
  }

  function UnknownVariable(variableType: string): string {
    "Unknown variable type: " + variableType
  }

  class DataManager {
    var keys: seq<string>
    var datasets: map<string, DatasetConfig>

    /** The key order lists the datasets, and the built-in datasets come first. */
    ghost predicate Valid()
      reads this
    {
      Indexes(keys, datasets) && DefaultKeys <= keys
    }

    /** `DataManager()`: the built-in datasets, then the custom file's entries
        (`customFile` is None when the file is missing or is not valid JSON). */
    constructor(currentYear: int, customFile: Option<seq<(string, Option<DatasetConfig>)>>)
      ensures Valid()
      ensures customFile.None? ==> keys == DefaultKeys && datasets == DefaultDatasets(currentYear)
      ensures customFile.Some? ==>
        (keys, datasets) == Load(DefaultKeys, DefaultDatasets(currentYear), customFile.value)
    {
      var ks, m := DefaultKeys, DefaultDatasets(currentYear);
      DefaultsIndexed(currentYear);
      if customFile.Some? {
        var entries := customFile.value;
        LoadFacts(ks, m, entries, 0);
        var i := 0;
        while i < |entries| && entries[i].1.Some?
          invariant 0 <= i <= |entries|
          invariant Load(ks, m, entries[i..]) == Load(DefaultKeys, DefaultDatasets(currentYear), entries)
          decreases |entries| - i
        {
          assert entries[i..][1..] == entries[i + 1..];
          ks, m := Put(ks, entries[i].0), m[entries[i].0 := entries[i].1.value];
          i := i + 1;
        }
      }
      keys, datasets := ks, m;
    }

    /** `get_dataset_config`. */
    function GetDatasetConfig(name: string): (r: Result<DatasetConfig, string>)
      reads this
      ensures r.Ok? <==> name in datasets
      ensures r.Ok? ==> r.value == datasets[name]
      ensures r.Err? ==> r.error == NotFound(name)
    {
      if name !in datasets then Err(NotFound(name)) else Ok(datasets[name])
    }

    /** `list_datasets`: every dataset name once, in dict order, built-in
        datasets first. */
    function ListDatasets(): (names: seq<string>)
      reads this
      requires Valid()
      ensures forall k :: k in names <==> k in datasets
      ensures Distinct(names)
      ensures DefaultKeys <= names
    {
      keys
    }

    /** `get_dataset_info`. */
    function GetDatasetInfo(name: string): (r: Result<DatasetInfo, string>)
      reads this
      ensures r.Err? <==> name !in datasets
      ensures r.Err? ==> r.error == NotFound(name)
      ensures r.Ok? ==>
        var c := datasets[name];
        r.value.name == name && r.value.earthEngineId == c.id
        && r.value.yearRange == (c.startYear, c.endYear)
        && r.value.displayName == c.displayName && r.value.description == c.description
        && r.value.regionCoverage == c.regionCoverage
        && r.value.spatialResolution == c.spatialResolution
        && r.value.temporalResolution == c.temporalResolution
    {
      var c :- GetDatasetConfig(name);
      Ok(DatasetInfo(name, c.displayName, c.description, c.regionCoverage,
                     c.spatialResolution, c.temporalResolution, (c.startYear, c.endYear), c.id))
    }

    /** `get_variable_key`: the dataset's band name for 'precip', 'tmax' or
        'tmin'; an unknown dataset is reported before an unknown variable. */
    function GetVariableKey(name: string, variableType: string): (r: Result<string, string>)
      reads this
      ensures name !in datasets ==> r == Err(NotFound(name))
      ensures name in datasets ==>
        (r.Ok? <==> variableType in ["precip", "tmax", "tmin"])
        && (variableType == "precip" ==> r == Ok(datasets[name].precipKey))
        && (variableType == "tmax" ==> r == Ok(datasets[name].tmaxKey))
        && (variableType == "tmin" ==> r == Ok(datasets[name].tminKey))
        && (r.Err? ==> r.error == UnknownVariable(variableType))
    {
      var c :- GetDatasetConfig(name);
      if variableType == "precip" then Ok(c.precipKey)
      else if variableType == "tmax" then Ok(c.tmaxKey)
      else if variableType == "tmin" then Ok(c.tminKey)
      else Err(UnknownVariable(variableType))
    }

    /** `get_conversion_factor`: the precipitation factor for 'precip', the
        temperature offset for 'temp', 'tmax' and 'tmin'. */
    function GetConversionFactor(name: string, variableType: string): (r: Result<real, string>)
      reads this
      ensures name !in datasets ==> r == Err(NotFound(name))
      ensures name in datasets ==>
        (r.Ok? <==> variableType in ["precip", "temp", "tmax", "tmin"])
        && (variableType == "precip" ==> r == Ok(datasets[name].precipConversion))
        && (variableType in ["temp", "tmax", "tmin"] ==> r == Ok(datasets[name].tempConversion))
        && (r.Err? ==> r.error == UnknownVariable(variableType))
    {
      var c :- GetDatasetConfig(name);
      if variableType == "precip" then Ok(c.precipConversion)
      else if variableType in ["temp", "tmax", "tmin"] then Ok(c.tempConversion)
      else Err(UnknownVariable(variableType))
    }

    /** `validate_date_range`: an unknown dataset raises; a date that did not
        parse (None) gives False, as do years outside the dataset's range and a
        start after the end. */
    function ValidateDateRange(name: string, start: Option<Date>, end: Option<Date>): (r: Result<bool, string>)
      reads this
      ensures r.Err? <==> name !in datasets
      ensures r.Err? ==> r.error == NotFound(name)
    {
      var c :- GetDatasetConfig(name);
      if start.None? || end.None? then Ok(false)
      else if !(c.startYear <= start.value.year <= c.endYear
                && c.startYear <= end.value.year <= c.endYear) then Ok(false)
      else if Later(start.value, end.value) then Ok(false)
      else Ok(true)
    }

    /** The entries `_save_custom_datasets` serialises, gathered by its loop. */
    method CustomConfigs() returns (custom: seq<(string, DatasetConfig)>)
      requires Valid()
      ensures custom == NonDefault(keys, datasets)
    {
      custom := [];
      var i := 0;
      while i < |keys|
        invariant 0 <= i <= |keys|
        invariant custom == NonDefault(keys[..i], datasets)
      {
        var k := keys[i];
        assert keys[..i + 1][..i] == keys[..i];
        if k !in DefaultKeys {
          custom := custom + [(k, datasets[k])];
        }
        i := i + 1;
      }
      assert keys[..i] == keys;
    }

    /** `add_custom_dataset`: `config` is None when building the configuration
        raises, and `saveDirFails` says whether creating the configuration
        directory raises. The dataset is inserted before saving, so a failing
        save returns False with the dataset kept. `saved` is what is written. */
    method AddCustomDataset(key: string, config: Option<DatasetConfig>, saveDirFails: bool)
      returns (ok: bool, saved: Option<seq<(string, DatasetConfig)>>)
      modifies this
      requires Valid()
      ensures Valid()
      ensures config.None? ==> !ok && saved.None? && keys == old(keys) && datasets == old(datasets)
      ensures config.Some? ==>
        keys == Put(old(keys), key) && datasets == old(datasets)[key := config.value]
        && ok == !saveDirFails
        && (saveDirFails ==> saved.None?)
        && (!saveDirFails ==> saved == Some(NonDefault(keys, datasets)))
    {
      if config.None? {
        return false, None;
      }
      PutIndexes(keys, datasets, key, config.value);
      keys, datasets := Put(keys, key), datasets[key := config.value];
      if saveDirFails {
        return false, None;
      }
      var custom := CustomConfigs();
      return true, Some(custom);
    }
  }

  /** A validated range is a non-empty stretch of the calendar inside the
      dataset's years, and every such range of parsed dates validates. */
  lemma ValidateDateRangeIff(dm: DataManager, name: string, start: Option<Date>, end: Option<Date>)
    requires name in dm.datasets
    requires start.Some? ==> ValidDate(start.value)
    requires end.Some? ==> ValidDate(end.value)
    ensures dm.ValidateDateRange(name, start, end) == Ok(true) <==>
      start.Some? && end.Some?
      && dm.datasets[name].startYear <= start.value.year <= dm.datasets[name].endYear
      && dm.datasets[name].startYear <= end.value.year <= dm.datasets[name].endYear
      && DayKey(start.value) <= DayKey(end.value)
    ensures dm.ValidateDateRange(name, start, end).Ok?
  {
    if start.Some? && end.Some? {
      LaterIsCalendarOrder(start.value, end.value);
    }
  }

  /** Every variable that has a band name also has a conversion factor, and
      'temp' is the one variable with a factor but no band name. */
  lemma VariableKeyHasFactor(dm: DataManager, name: string, variableType: string)
    ensures dm.GetVariableKey(name, variableType).Ok? ==> dm.GetConversionFactor(name, variableType).Ok?
    ensures name in dm.datasets ==>
      (dm.GetConversionFactor(name, variableType).Ok? && !dm.GetVariableKey(name, variableType).Ok?
       <==> variableType == "temp")
  {
  }

  /** A configuration saved by `add_custom_dataset` is in the written file
      under its key unless the key is a built-in one, which is never written. */
  lemma AddedDatasetIsSaved(keys: seq<string>, m: map<string, DatasetConfig>, key: string, v: DatasetConfig)
    requires Indexes(keys, m)
    ensures var c := NonDefault(Put(keys, key), m[key := v]);
      (key !in DefaultKeys <==> exists i :: 0 <= i < |c| && c[i] == (key, v))
  {
    PutIndexes(keys, m, key, v);
    NonDefaultExact(Put(keys, key), m[key := v]);
  }
}
