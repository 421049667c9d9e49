/** Python's ordering of strings (code point by code point), and the two
    smallest keys of a list, which is what `keys.sort()` followed by
    `keys[0]`, `keys[1]` selects. */
module StringOrder {

  /** `a < b` on Python strings. */
  predicate LexLess(a: string, b: string)
    decreases |a|
  {
    |b| > 0 && (|a| == 0 || a[0] < b[0] || (a[0] == b[0] && LexLess(a[1..], b[1..])))
  }

  lemma {:induction false} LexLessIrreflexive(a: string)
    ensures !LexLess(a, a)
    decreases |a|
  {
    if |a| > 0 {
      LexLessIrreflexive(a[1..]);
    }
  }

  lemma {:induction false} LexLessTransitive(a: string, b: string, c: string)
    requires LexLess(a, b) && LexLess(b, c)
    ensures LexLess(a, c)
    decreases |a|
  {
    if |a| > 0 && a[0] == b[0] && b[0] == c[0] {
      LexLessTransitive(a[1..], b[1..], c[1..]);
    }
  }

  /** Two different strings are ordered one way or the other. */
  lemma {:induction false} LexLessTotal(a: string, b: string)
    requires a != b
    ensures LexLess(a, b) || LexLess(b, a)
    decreases |a|
  {
    if |a| > 0 && |b| > 0 && a[0] == b[0] {
      assert a == [a[0]] + a[1..] && b == [b[0]] + b[1..];
      LexLessTotal(a[1..], b[1..]);
    }
  }

  /** The position of the first smallest string: where `sort` takes its first
      element from. */
  function MinIndex(xs: seq<string>): (i: nat)
    requires |xs| > 0
    ensures i < |xs|
  {
    if |xs| == 1 then 0
    else
      var k := MinIndex(xs[..|xs| - 1]);
      if LexLess(xs[|xs| - 1], xs[k]) then |xs| - 1 else k
  }

  /** No string of the list is smaller than the one `MinIndex` picks. */
  lemma {:induction false} MinIndexIsMinimal(xs: seq<string>)
    requires |xs| > 0
    ensures forall j :: 0 <= j < |xs| ==> !LexLess(xs[j], xs[MinIndex(xs)])
  {
    if |xs| > 1 {
      var init := xs[..|xs| - 1];
      MinIndexIsMinimal(init);
      var k := MinIndex(init);
      var last := xs[|xs| - 1];
      assert init[k] == xs[k];
      forall j | 0 <= j < |xs|
        ensures !LexLess(xs[j], xs[MinIndex(xs)])
      {
        if j < |xs| - 1 {
          assert init[j] == xs[j];
          if LexLess(last, xs[k]) && LexLess(xs[j], last) {
            LexLessTransitive(xs[j], last, xs[k]);
          }
        } else if LexLess(last, xs[k]) {
          LexLessIrreflexive(last);
        }
      }
    } else {
      LexLessIrreflexive(xs[0]);
    }
  }

  /** `xs` without its element at position `i`. */
  function Without<T>(xs: seq<T>, i: nat): (r: seq<T>)
    requires i < |xs|
    ensures |r| == |xs| - 1
  {
    xs[..i] + xs[i + 1..]
  }

  /** The two smallest positions after sorting: `sorted(xs)[0]` sits at the
      first, `sorted(xs)[1]` at the second; no other element is smaller than
      either. */
  function FirstTwo(xs: seq<string>): (p: (nat, nat))
    requires |xs| >= 2
    ensures p.0 < |xs| && p.1 < |xs| && p.0 != p.1
    ensures forall j :: 0 <= j < |xs| ==> !LexLess(xs[j], xs[p.0])
    ensures forall j :: 0 <= j < |xs| && j != p.0 ==> !LexLess(xs[j], xs[p.1])
  {
    var a := MinIndex(xs);
    MinIndexIsMinimal(xs);
    var rest := Without(xs, a);
    var b := MinIndex(rest);
    MinIndexIsMinimal(rest);
    var second := if b < a then b else b + 1;
    assert rest[b] == xs[second];
    assert forall j :: 0 <= j < |xs| && j != a ==> xs[j] == rest[if j < a then j else j - 1];
    (a, second)
  }
}

/** The index registry and the per-year assembly of an analysis result. The
    Earth Engine computations are inputs: what each year's calculation
    produced, and the percentile statistics of the final image. */
module Analysis {
  import opened Outcomes
  import opened OrderedDicts
  import opened StringOrder

  datatype Category = Precipitation | Temperature

  /** `IndexCategory.X.value`. */
  function CategoryValue(c: Category): string {
    match c
    case Precipitation => "Precipitation"
    case Temperature => "Temperature"
  }

  /** `IndexCategory(s)`: the member whose value is `s`; None stands for the
      ValueError it raises otherwise. */
  function ParseCategory(s: string): (r: Option<Category>)
  {
    if s == "Precipitation" then Some(Precipitation)
    else if s == "Temperature" then Some(Temperature)
    else None
  }

  /** Parsing a category is the inverse of its value. */
  lemma ParseCategoryInverse(s: string, c: Category)
    ensures ParseCategory(CategoryValue(c)) == Some(c)
    ensures ParseCategory(s) == Some(c) <==> s == CategoryValue(c)
  {
  }

  const DefaultPalette: seq<string> := ["#deebf7", "#9ecae1", "#3182bd"]
  const RedPalette: seq<string> := ["#fee5d9", "#fcae91", "#fb6a4a", "#de2d26", "#a50f15"]
  const DivergingPalette: seq<string> := ["#2166ac", "#67a9cf", "#f7f7f7", "#fddbc7", "#ef8a62", "#b2182b"]

  datatype IndexInfo = IndexInfo(
    name: string,
    category: Category,
    description: string,
    units: string,
    requiresDaily: bool,
    minVisValue: real,
    maxVisValue: real,
    palette: Option<seq<string>>)

  const BuiltInNames: seq<string> := [
    "Annual total precipitation", "Annual maximum 1-day precipitation",
    "Number of wet days", "Consecutive dry days",
    "Annual maximum temperature", "Annual minimum temperature",
    "Frost days", "Summer days"]

  /** `AVAILABLE_INDICES` as the class defines it. */
  function BuiltInIndices(): map<string, IndexInfo> {
    map[
      "Annual total precipitation" := IndexInfo("Annual total precipitation", Precipitation,
        "Total precipitation over the year", "mm/year", true, 0.0, 3000.0, Some(DefaultPalette)),
      "Annual maximum 1-day precipitation" := IndexInfo("Annual maximum 1-day precipitation", Precipitation,
        "Maximum 1-day precipitation amount", "mm/day", true, 0.0, 150.0, Some(DefaultPalette)),
      "Number of wet days" := IndexInfo("Number of wet days", Precipitation,
        "Annual count of days with precipitation ≥1mm", "days", true, 0.0, 365.0, Some(RedPalette)),
      "Consecutive dry days" := IndexInfo("Consecutive dry days", Precipitation,
        "Maximum number of consecutive dry days (precipitation <1mm)", "days", true, 0.0, 100.0,
        Some(RedPalette)),
      "Annual maximum temperature" := IndexInfo("Annual maximum temperature", Temperature,
        "Maximum value of daily maximum temperature", "°C", true, -10.0, 45.0, Some(DivergingPalette)),
      "Annual minimum temperature" := IndexInfo("Annual minimum temperature", Temperature,
        "Minimum value of daily minimum temperature", "°C", true, -30.0, 25.0, Some(DivergingPalette)),
      "Frost days" := IndexInfo("Frost days", Temperature,
        "Annual count of days with minimum temperature < 0°C", "days", true, 0.0, 365.0, Some(RedPalette)),
      "Summer days" := IndexInfo("Summer days", Temperature,
        "Annual count of days with maximum temperature > 25°C", "days", true, 0.0, 365.0,
        Some(DefaultPalette))
    ]
  }

  lemma BuiltInsIndexed()
    ensures Indexes(BuiltInNames, BuiltInIndices())
    ensures forall k :: k in BuiltInIndices() ==> BuiltInIndices()[k].name == k
  {
  }

  /** The names, in registry order, of the indices in category `c`. */
  function InCategory(names: seq<string>, indices: map<string, IndexInfo>, c: Category): seq<string>
  {
    if |names| == 0 then []
    else
      var k := names[|names| - 1];
      InCategory(names[..|names| - 1], indices, c)
        + (if k in indices && indices[k].category == c then [k] else [])
  }

  /** A name is listed exactly when it is registered in the category; the
      list keeps registry order, so it is a subsequence of the registry, and
      it repeats no name when the registry does not. */
  lemma {:induction false} InCategoryExact(names: seq<string>, indices: map<string, IndexInfo>, c: Category)
    ensures forall k :: k in InCategory(names, indices, c) <==>
      k in names && k in indices && indices[k].category == c
    ensures |InCategory(names, indices, c)| <= |names|
    ensures SubsequenceOf(InCategory(names, indices, c), names)
    ensures Distinct(names) ==> Distinct(InCategory(names, indices, c))
  {
    if |names| > 0 {
      var init := names[..|names| - 1];
      var k := names[|names| - 1];
      InCategoryExact(init, indices, c);
      assert names == init + [k];
      var pre := InCategory(init, indices, c);
      var r := InCategory(names, indices, c);
      if k in indices && indices[k].category == c {
        assert r == pre + [k];
        assert r[..|r| - 1] == pre;
      } else {
        assert r == pre;
      }
      if Distinct(names) {
        assert Distinct(init) by {
          forall i, j | 0 <= i < j < |init| ensures init[i] != init[j] {
            assert init[i] == names[i] && init[j] == names[j];
          }
        }
        assert k !in init by {
          forall i | 0 <= i < |init| ensures init[i] != k {
            assert init[i] == names[i];
          }
        }
        if r != pre {
          forall i, j | 0 <= i < j < |r| ensures r[i] != r[j] {
            if j == |r| - 1 {
              assert r[i] == pre[i];
              assert pre[i] in pre;
            } else {
              assert r[i] == pre[i] && r[j] == pre[j];
            }
          }
        }
      }
    }
  }

  /** Every registered index is in exactly one of the two category lists. */
  lemma {:induction false} CategoriesPartition(names: seq<string>, indices: map<string, IndexInfo>)
    requires forall k :: k in names ==> k in indices
    ensures |InCategory(names, indices, Precipitation)| + |InCategory(names, indices, Temperature)| == |names|
  {
    if |names| > 0 {
      var init := names[..|names| - 1];
      assert forall k :: k in init ==> k in names;
      CategoriesPartition(init, indices);
    }
  }

  /** What `get_index_info` returns. */
  datatype IndexDescription = IndexDescription(
    name: string,
    category: string,
    description: string,
    units: string,
    requiresDaily: bool,
    visMin: real,
    visMax: real,
    visPalette: Option<seq<string>>)

  /** The `info` dict given to `add_custom_index`: each field is None when the
      key is absent (`info.get` then supplies the default), and `palette` is
      Some(None) for a key present with the value None. */
  datatype CustomIndexInput = CustomIndexInput(
    category: Option<string>,
    description: Option<string>,
    units: Option<string>,
    requiresDaily: Option<bool>,
    minVisValue: Option<real>,
    maxVisValue: Option<real>,
    palette: Option<Option<seq<string>>>)

  function GetOr<T>(o: Option<T>, default: T): T {
    if o.Some? then o.value else default
  }

  /** The record `add_custom_index` builds; None when the category is not a
      valid one. */
  function CustomIndexInfo(name: string, input: CustomIndexInput): (r: Option<IndexInfo>)
    ensures r.Some? <==> ParseCategory(GetOr(input.category, "Precipitation")).Some?
    ensures r.Some? ==>
      r.value.name == name
      && CategoryValue(r.value.category) == GetOr(input.category, "Precipitation")
      && r.value.palette == GetOr(input.palette, Some(DefaultPalette))
      && r.value.description == GetOr(input.description, "")
      && r.value.units == GetOr(input.units, "")
      && r.value.requiresDaily == GetOr(input.requiresDaily, true)
      && r.value.minVisValue == GetOr(input.minVisValue, 0.0)
      && r.value.maxVisValue == GetOr(input.maxVisValue, 100.0)
  {
    var c := ParseCategory(GetOr(input.category, "Precipitation"));
    if c.None? then None
    else
      Some(IndexInfo(name, c.value, GetOr(input.description, ""), GetOr(input.units, ""),
                     GetOr(input.requiresDaily, true), GetOr(input.minVisValue, 0.0),
                     GetOr(input.maxVisValue, 100.0), GetOr(input.palette, Some(DefaultPalette))))
  }

  /** One year's `_calculate_index` and mean reduction. */
  datatype MeanOutcome = MeanRaised | NoValue | Value(v: real)
  datatype YearCalc = CalcRaised | Calculated(image: nat, mean: MeanOutcome)

  datatype VisParams = VisParams(min: real, max: real, palette: seq<string>, opacity: real)

  datatype AnalysisResult = AnalysisResult(
    index: string,
    parameter: string,
    dataset: string,
    timeRange: (int, int),
    units: string,
    temporalData: seq<(int, real)>,
    data: Option<nat>,
    visParams: VisParams)

  function UnknownIndex(index: string): string {
    "Unknown index: " + index
  }

  const YearOrderError: string := "Start year must be less than or equal to end year"

  function CategoryMismatch(index: string, parameter: string): string {
    "Index " + index + " is not a " + parameter + " index"
  }

  /** The (year, mean) points for the years `start..end` whose calculation and
      reduction succeeded with a value. */
  function TemporalData(yearCalc: int -> YearCalc, start: int, end: int): seq<(int, real)>
    decreases end - start
  {
    if end < start then []
    else
      TemporalData(yearCalc, start, end - 1)
        + (if yearCalc(end).Calculated? && yearCalc(end).mean.Value? then [(end, yearCalc(end).mean.v)] else [])
  }

  /** The points are in strictly ascending year order inside the range, and a
      year has a point exactly when its value was obtained, with that value. */
  lemma {:induction false} TemporalDataFacts(yearCalc: int -> YearCalc, start: int, end: int)
    ensures var t := TemporalData(yearCalc, start, end);
      (forall i :: 0 <= i < |t| ==> start <= t[i].0 <= end)
      && (forall i :: 0 <= i < |t| ==> yearCalc(t[i].0).Calculated? && yearCalc(t[i].0).mean == Value(t[i].1))
      && (forall i, j :: 0 <= i < j < |t| ==> t[i].0 < t[j].0)
      && (forall y :: start <= y <= end && yearCalc(y).Calculated? && yearCalc(y).mean.Value? ==>
            exists i :: 0 <= i < |t| && t[i].0 == y)
    decreases end - start
  {
    if end >= start {
      TemporalDataFacts(yearCalc, start, end - 1);
      var t0 := TemporalData(yearCalc, start, end - 1);
      var t := TemporalData(yearCalc, start, end);
      forall y | start <= y <= end && yearCalc(y).Calculated? && yearCalc(y).mean.Value?
        ensures exists i :: 0 <= i < |t| && t[i].0 == y
      {
        if y == end {
          assert t[|t| - 1].0 == y;
        } else {
          var i :| 0 <= i < |t0| && t0[i].0 == y;
          assert t[i] == t0[i];
        }
      }
      forall i, j | 0 <= i < j < |t|
        ensures t[i].0 < t[j].0
      {
        assert t[i] == t0[i];
        if j < |t0| {
          assert t[j] == t0[j];
        }
      }
      forall i | 0 <= i < |t|
        ensures start <= t[i].0 <= end
        ensures yearCalc(t[i].0).Calculated? && yearCalc(t[i].0).mean == Value(t[i].1)
      {
        if i < |t0| {
          assert t[i] == t0[i];
        }
      }
    }
  }

  /** The first value stored under `key` in the statistics (`stats.get`). */
  function Lookup(entries: seq<(string, Option<real>)>, key: string): Option<real>
  {
    if |entries| == 0 then None
    else if entries[0].0 == key then entries[0].1
    else Lookup(entries[1..], key)
  }

  function Keys(entries: seq<(string, Option<real>)>): (ks: seq<string>)
    ensures |ks| == |entries|
    ensures forall i :: 0 <= i < |entries| ==> ks[i] == entries[i].0
  {
    if |entries| == 0 then [] else [entries[0].0] + Keys(entries[1..])
  }

  /** The 2nd and 98th percentiles taken from the statistics of the final image
      (None when reducing it raised): the values of the two smallest keys, if
      there are at least two keys and neither value is None. */
  function PercentileOverride(stats: Option<seq<(string, Option<real>)>>): (r: Option<(real, real)>)
  {
    if stats.None? || |stats.value| < 2 then None
    else
      var ks := Keys(stats.value);
      var p := FirstTwo(ks);
      var lo, hi := Lookup(stats.value, ks[p.0]), Lookup(stats.value, ks[p.1]);
      if lo.None? || hi.None? then None else Some((lo.value, hi.value))
  }

  /** The override happens exactly when there are two keys whose values are
      present, and it uses the values of the two keys that sort first. */
  lemma PercentileOverrideIff(stats: Option<seq<(string, Option<real>)>>)
    ensures PercentileOverride(stats).Some? <==>
      stats.Some? && |stats.value| >= 2
      && var ks := Keys(stats.value);
         var p := FirstTwo(ks);
         Lookup(stats.value, ks[p.0]).Some? && Lookup(stats.value, ks[p.1]).Some?
    ensures PercentileOverride(stats).Some? ==>
      var ks := Keys(stats.value);
      var p := FirstTwo(ks);
      PercentileOverride(stats).value == (Lookup(stats.value, ks[p.0]).value, Lookup(stats.value, ks[p.1]).value)
      && (forall j :: 0 <= j < |ks| ==> !LexLess(ks[j], ks[p.0]))
      && (forall j :: 0 <= j < |ks| && j != p.0 ==> !LexLess(ks[j], ks[p.1]))
  {
  }

  /** The visualisation parameters taken from the index record. The palette
      is `index_info.palette or [...]`: a missing or empty palette gives the
      default one, so the map always gets colours. */
  function InitialVis(info: IndexInfo): (v: VisParams)
    ensures |v.palette| > 0
    ensures info.palette.Some? && |info.palette.value| > 0 ==> v.palette == info.palette.value
    ensures info.palette.None? || |info.palette.value| == 0 ==> v.palette == DefaultPalette
    ensures v.min == info.minVisValue && v.max == info.maxVisValue && v.opacity == 0.8
  {
    var palette := if info.palette.Some? && |info.palette.value| > 0 then info.palette.value else DefaultPalette;
    VisParams(info.minVisValue, info.maxVisValue, palette, 0.8)
  }

  class AnalysisEngine {
    /** `AVAILABLE_INDICES`, its key order and its records. */
    var names: seq<string>
    var indices: map<string, IndexInfo>

    ghost predicate Valid()
      reads this
    {
      Indexes(names, indices)
    }

    constructor()
      ensures Valid()
      ensures names == BuiltInNames && indices == BuiltInIndices()
    {
      BuiltInsIndexed();
      names, indices := BuiltInNames, BuiltInIndices();
    }

    /** `get_index_info`. */
    function GetIndexInfo(indexName: string): (r: Result<IndexDescription, string>)
      reads this
      ensures r.Err? <==> indexName !in indices
      ensures r.Err? ==> r.error == UnknownIndex(indexName)
      ensures r.Ok? ==>
        var info := indices[indexName];
        r.value.name == info.name && r.value.category == CategoryValue(info.category)
        && r.value.description == info.description && r.value.units == info.units
        && r.value.requiresDaily == info.requiresDaily && r.value.visPalette == info.palette
        && r.value.visMin == info.minVisValue && r.value.visMax == info.maxVisValue
    {
      if indexName !in indices then Err(UnknownIndex(indexName))
      else
        var info := indices[indexName];
        Ok(IndexDescription(info.name, CategoryValue(info.category), info.description, info.units,
                            info.requiresDaily, info.minVisValue, info.maxVisValue, info.palette))
    }

    /** `list_indices`: no category or an empty one lists every index; a
        valid category lists its indices; any other value raises. */
    function ListIndices(category: Option<string>): (r: Result<seq<string>, string>)
      reads this
      requires Valid()
      ensures category.None? || category.value == "" ==> r == Ok(names)
      ensures category.Some? && category.value != "" ==>
        (r.Err? <==> ParseCategory(category.value).None?)
      ensures r.Ok? && category.Some? && category.value != "" ==>
        (forall k :: k in r.value <==> k in indices && CategoryValue(indices[k].category) == category.value)
        && SubsequenceOf(r.value, names) && Distinct(r.value)
    {
      if category.None? || category.value == "" then Ok(names)
      else
        var c := ParseCategory(category.value);
        if c.None? then Err(category.value)
        else
          InCategoryExact(names, indices, c.value);
          ParseCategoryInverse(category.value, c.value);
          Ok(InCategory(names, indices, c.value))
    }

    /** `add_custom_index`: an invalid category returns False and changes
        nothing; otherwise the record is inserted or overwritten. */
    method AddCustomIndex(name: string, input: CustomIndexInput) returns (ok: bool)
      modifies this
      requires Valid()
      ensures Valid()
      ensures ok <==> CustomIndexInfo(name, input).Some?
      ensures !ok ==> names == old(names) && indices == old(indices)
      ensures ok ==>
        names == Put(old(names), name)
        && indices == old(indices)[name := CustomIndexInfo(name, input).value]
    {
      var info := CustomIndexInfo(name, input);
      if info.None? {
        return false;
      }
      PutIndexes(names, indices, name, info.value);
      names, indices := Put(names, name), indices[name := info.value];
      return true;
    }

    /** `analyze`: the input checks in their order, then the year loop, then
        the percentile stretch of the final image. */
    method Analyze(startYear: int, endYear: int, dataset: string, parameter: string, index: string,
                   yearCalc: int -> YearCalc, stats: Option<seq<(string, Option<real>)>>)
      returns (r: Result<AnalysisResult, string>)
      ensures index !in indices ==> r == Err(UnknownIndex(index))
      ensures index in indices && startYear > endYear ==> r == Err(YearOrderError)
      ensures index in indices && startYear <= endYear && CategoryValue(indices[index].category) != parameter ==>
        r == Err(CategoryMismatch(index, parameter))
      ensures r.Ok? <==>
        index in indices && startYear <= endYear && CategoryValue(indices[index].category) == parameter
      ensures r.Ok? ==>
        var info := indices[index];
        var data := if yearCalc(endYear).Calculated? then Some(yearCalc(endYear).image) else None;
        var override := if data.Some? then PercentileOverride(stats) else None;
        r.value.index == index && r.value.parameter == parameter && r.value.dataset == dataset
        && r.value.timeRange == (startYear, endYear) && r.value.units == info.units
        && r.value.temporalData == TemporalData(yearCalc, startYear, endYear)
        && r.value.data == data
        && r.value.visParams == (if override.Some? then InitialVis(info).(min := override.value.0, max := override.value.1)
                                 else InitialVis(info))
    {
      if index !in indices {
        return Err(UnknownIndex(index));
      }
      if startYear > endYear {
        return Err(YearOrderError);
      }
      var info := indices[index];
      if CategoryValue(info.category) != parameter {
        return Err(CategoryMismatch(index, parameter));
      }
      var temporal: seq<(int, real)> := [];
      var vis := InitialVis(info);
      var finalResult: Option<nat> := None;
      var year := startYear;
      while year <= endYear
        invariant startYear <= year <= endYear + 1
        invariant temporal == TemporalData(yearCalc, startYear, year - 1)
        invariant finalResult == (if year > endYear && yearCalc(endYear).Calculated? then Some(yearCalc(endYear).image) else None)
        decreases endYear - year
      {
        var outcome := yearCalc(year);
        if outcome.Calculated? {
          if year == endYear {
            finalResult := Some(outcome.image);
          }
          if outcome.mean.Value? {
            temporal := temporal + [(year, outcome.mean.v)];
          }
        }
        year := year + 1;
      }
      var data: Option<nat> := None;
      if finalResult.Some? {
        data := finalResult;
        var p := PercentileOverride(stats);
        if p.Some? {
          vis := vis.(min := p.value.0, max := p.value.1);
        }
      }
      return Ok(AnalysisResult(index, parameter, dataset, (startYear, endYear), info.units,
                               temporal, data, vis));
    }
  }
}
