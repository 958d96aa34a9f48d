/** The location resolver of the tax-rate front end (`CSVParser`): it parses
    the geocode-to-location CSV into records, builds the sorted state, county
    and city dropdown lists, and maps between a (state, county, city)
    selection and a geocode in both directions. The process-wide cache and
    the fetch of the CSV file are not part of this model; every query takes
    the parsed records as an explicit argument. */
module CsvParser {
  import opened Optional
  import opened Strings
  import opened Sequences

  /** One line of the location CSV. */
  datatype LocationData = LocationData(
    geocode: string,
    zip: string,
    cityName: string,
    countyName: string,
    stateName: string,
    sdCode: string)

  /** A geocode with its location as shown to the user. */
  datatype GeocodeLocation = GeocodeLocation(
    geocode: string,
    state: string,
    county: string,
    city: string)

  /** A (state, county, city) triple ready for an exact lookup. */
  datatype LocationQuery = LocationQuery(state: string, county: string, city: string)

  /** The reserved names of the records that stand for a whole state or a
      whole county. */
  const DefaultCounty: string := "DEFAULT COUNTY"
  const DefaultCity: string := "DEFAULT CITY"

  /** JavaScript truthiness of an optional string argument: given and non-empty. */
  predicate Truthy(o: Option<string>) {
    o.Some? && o.value != ""
  }

  // ---------------------------------------------------------------------
  // parseCSV
  // ---------------------------------------------------------------------

  /** `values[index] || ''`: the value in column `i`, or the empty string
      when the line is too short. */
  function Cell(values: seq<string>, i: nat): string {
    if i < |values| then values[i] else ""
  }

  /** `row` is what assigning `row[headers[i]] = Cell(values, i)` for
      `i = 0 .. n-1` produces: its keys are the first `n` headers, and a
      header that occurs more than once keeps the value of its last
      column. */
  ghost predicate RowFits(row: map<string, string>, headers: seq<string>, values: seq<string>, n: nat)
    requires n <= |headers|
  {
    RowKeys(row, headers, n) && RowValues(row, headers, values, n)
  }

  ghost predicate RowKeys(row: map<string, string>, headers: seq<string>, n: nat)
    requires n <= |headers|
  {
    forall h :: h in row <==> exists i :: 0 <= i < n && headers[i] == h
  }

  ghost predicate RowValues(row: map<string, string>, headers: seq<string>, values: seq<string>, n: nat)
    requires n <= |headers|
  {
    forall i :: 0 <= i < n && (forall j :: i < j < n ==> headers[j] != headers[i]) ==>
      headers[i] in row && row[headers[i]] == Cell(values, i)
  }

  /** The lines of the trimmed CSV text; the first is the header. */
  function Lines(csvText: string): seq<string> {
    Split(Trim(csvText), '\n')
  }

  /** `parseCSV`: one row per line after the header, each mapping every
      header to the value in the same column of its line. */
  method ParseCsv(csvText: string) returns (rows: seq<map<string, string>>)
    ensures |rows| == |Lines(csvText)| - 1
    ensures var headers := Split(Lines(csvText)[0], ',');
      forall k :: 0 <= k < |rows| ==>
        RowFits(rows[k], headers, Split(Lines(csvText)[k + 1], ','), |headers|)
  {
    var lines := Split(Trim(csvText), '\n');
    var headers := Split(lines[0], ',');
    rows := [];
    var k := 1;
    while k < |lines|
      invariant 1 <= k <= |lines|
      invariant |rows| == k - 1
      invariant forall m :: 0 <= m < |rows| ==>
        RowFits(rows[m], headers, Split(lines[m + 1], ','), |headers|)
    {
      var row := FillRow(headers, Split(lines[k], ','));
      rows := rows + [row];
      k := k + 1;
    }
  }

  /** The `headers.forEach` that fills one row object from one line's values. */
  method FillRow(headers: seq<string>, values: seq<string>) returns (row: map<string, string>)
    ensures RowFits(row, headers, values, |headers|)
  {
    row := map[];
    var j := 0;
    while j < |headers|
      invariant 0 <= j <= |headers|
      invariant RowFits(row, headers, values, j)
    {
      RowFitsStep(row, headers, values, j);
      row := row[headers[j] := Cell(values, j)];
      j := j + 1;
    }
  }

  lemma RowFitsStep(row: map<string, string>, headers: seq<string>, values: seq<string>, j: nat)
    requires j < |headers|
    requires RowFits(row, headers, values, j)
    ensures RowFits(row[headers[j] := Cell(values, j)], headers, values, j + 1)
  {
    RowKeysStep(row, headers, j, Cell(values, j));
    RowValuesStep(row, headers, values, j);
  }

  lemma RowKeysStep(row: map<string, string>, headers: seq<string>, j: nat, v: string)
    requires j < |headers|
    requires RowKeys(row, headers, j)
    ensures RowKeys(row[headers[j] := v], headers, j + 1)
  {
    var row' := row[headers[j] := v];
    forall h ensures h in row' <==> exists i :: 0 <= i < j + 1 && headers[i] == h {
      if h in row && h != headers[j] {
        var i :| 0 <= i < j && headers[i] == h;
      }
    }
  }

  lemma RowValuesStep(row: map<string, string>, headers: seq<string>, values: seq<string>, j: nat)
    requires j < |headers|
    requires RowValues(row, headers, values, j)
    ensures RowValues(row[headers[j] := Cell(values, j)], headers, values, j + 1)
  {
    var row' := row[headers[j] := Cell(values, j)];
    forall i | 0 <= i < j + 1 && (forall k :: i < k < j + 1 ==> headers[k] != headers[i])
      ensures headers[i] in row' && row'[headers[i]] == Cell(values, i)
    {
      if i < j {
        assert headers[j] != headers[i];
        assert forall k :: i < k < j ==> headers[k] != headers[i];
      }
    }
  }

  // ---------------------------------------------------------------------
  // dropdown lists
  // ---------------------------------------------------------------------

  /** A name that may appear in a dropdown: non-empty and not a reserved name. */
  predicate Listed(name: string) {
    name != "" && name != DefaultCounty && name != DefaultCity
  }

  /** `getUniqueStates`: every listed state name of the data, once, ascending. */
  function UniqueStates(data: seq<LocationData>): (r: seq<string>)
    ensures StrictlyAscending(r)
    ensures forall s :: s in r <==> Listed(s) && exists i :: 0 <= i < |data| && data[i].stateName == s
  {
    var names := seq(|data|, i requires 0 <= i < |data| => data[i].stateName);
    assert forall s :: s in names <==> exists i :: 0 <= i < |data| && data[i].stateName == s by {
      forall s ensures s in names <==> exists i :: 0 <= i < |data| && data[i].stateName == s {
        if exists i :: 0 <= i < |data| && data[i].stateName == s {
          var i :| 0 <= i < |data| && data[i].stateName == s;
          assert names[i] == s;
        }
      }
    }
    DistinctListed(names)
  }

  /** `getCountiesByState`: every listed county name of the records of
      `state`, once, ascending. */
  function CountiesByState(data: seq<LocationData>, state: string): (r: seq<string>)
    ensures StrictlyAscending(r)
    ensures forall c :: c in r <==>
      Listed(c) && exists i :: 0 <= i < |data| && data[i].stateName == state && data[i].countyName == c
  {
    DistinctListed(SelectedNames(data, (item: LocationData) => item.stateName == state,
                                       (item: LocationData) => item.countyName))
  }

  /** `getCitiesByStateAndCounty`: every listed city name of the records of
      `state` and `county`, once, ascending. */
  function CitiesByStateAndCounty(data: seq<LocationData>, state: string, county: string): (r: seq<string>)
    ensures StrictlyAscending(r)
    ensures forall c :: c in r <==>
      Listed(c) && exists i :: 0 <= i < |data| && InCounty(data[i], state, county) && data[i].cityName == c
  {
    DistinctListed(SelectedNames(data, (item: LocationData) => InCounty(item, state, county),
                                       (item: LocationData) => item.cityName))
  }

  /** `data.filter(select).map(name)`: the names of the selected records. */
  function SelectedNames(data: seq<LocationData>, select: LocationData -> bool, name: LocationData -> string): (names: seq<string>)
    ensures forall c :: c in names <==> exists i :: 0 <= i < |data| && select(data[i]) && name(data[i]) == c
  {
    var selected := Filter(data, select);
    var names := seq(|selected|, i requires 0 <= i < |selected| => name(selected[i]));
    assert forall c :: c in names <==> exists i :: 0 <= i < |data| && select(data[i]) && name(data[i]) == c by {
      forall c ensures c in names <==> exists i :: 0 <= i < |data| && select(data[i]) && name(data[i]) == c {
        SelectedName(data, select, name, names, c);
      }
    }
    names
  }

  lemma SelectedName(data: seq<LocationData>, select: LocationData -> bool, name: LocationData -> string,
                     names: seq<string>, c: string)
    requires names == seq(|Filter(data, select)|, i requires 0 <= i < |Filter(data, select)| => name(Filter(data, select)[i]))
    ensures c in names <==> exists i :: 0 <= i < |data| && select(data[i]) && name(data[i]) == c
  {
    var selected := Filter(data, select);
    if c in names {
      var k :| 0 <= k < |names| && names[k] == c;
      FilterMember(data, select, selected[k]);
      var i :| 0 <= i < |data| && data[i] == selected[k];
      assert select(data[i]) && name(data[i]) == c;
    }
    if exists i :: 0 <= i < |data| && select(data[i]) && name(data[i]) == c {
      var i :| 0 <= i < |data| && select(data[i]) && name(data[i]) == c;
      FilterMember(data, select, data[i]);
      var k :| 0 <= k < |selected| && selected[k] == data[i];
      assert names[k] == c;
    }
  }

  /** The record belongs to `county` of `state`. */
  predicate InCounty(item: LocationData, state: string, county: string) {
    item.stateName == state && item.countyName == county
  }

  /** `Array.from(new Set(names.filter(listed))).sort()`. */
  function DistinctListed(names: seq<string>): (r: seq<string>)
    ensures StrictlyAscending(r)
    ensures forall c :: c in r <==> c in names && Listed(c)
  {
    var kept := Filter(names, Listed);
    var r := SortedDistinct(kept);
    assert forall c :: c in r <==> c in names && Listed(c) by {
      forall c ensures c in r <==> c in names && Listed(c) {
        FilterMember(names, Listed, c);
      }
    }
    r
  }

  // ---------------------------------------------------------------------
  // findGeocodeByLocation
  // ---------------------------------------------------------------------

  /** The three candidate filters, in the order they are pushed. */
  datatype LocationFilter =
    | ExactCity(askedCounty: Option<string>, city: string)
    | CountyDefault(county: string)
    | StateDefault

  /** Whether `item` passes `f` for the requested `state`. The exact-city
      filter compares the county with `===`, so an absent county matches no
      record. */
  predicate Accepts(f: LocationFilter, state: string, item: LocationData) {
    item.stateName == state &&
    match f
    case ExactCity(askedCounty, city) =>
      askedCounty == Some(item.countyName) && item.cityName == city
    case CountyDefault(county) =>
      item.countyName == county && item.cityName == DefaultCity
    case StateDefault =>
      item.countyName == DefaultCounty && item.cityName == DefaultCity
  }

  /** `i` is the position `data.find` stops at for filter `f`. */
  predicate IsFirstMatch(data: seq<LocationData>, f: LocationFilter, state: string, i: int) {
    0 <= i < |data| && Accepts(f, state, data[i]) &&
    forall j :: 0 <= j < i ==> !Accepts(f, state, data[j])
  }

  /** `data.find(filter)`, as the position of the record found. */
  function Find(data: seq<LocationData>, f: LocationFilter, state: string): (r: Option<nat>)
    ensures r.Some? ==> IsFirstMatch(data, f, state, r.value)
    ensures r.None? <==> forall j :: 0 <= j < |data| ==> !Accepts(f, state, data[j])
  {
    FindFrom(data, f, state, 0)
  }

  function FindFrom(data: seq<LocationData>, f: LocationFilter, state: string, from: nat): (r: Option<nat>)
    requires from <= |data|
    requires forall j :: 0 <= j < from ==> !Accepts(f, state, data[j])
    ensures r.Some? ==> IsFirstMatch(data, f, state, r.value)
    ensures r.None? <==> forall j :: 0 <= j < |data| ==> !Accepts(f, state, data[j])
    decreases |data| - from
  {
    if from == |data| then None
    else if Accepts(f, state, data[from]) then Some(from)
    else FindFrom(data, f, state, from + 1)
  }

  /** The geocode of the record `data.find(filter)` returns, if any. */
  function GeocodeOf(data: seq<LocationData>, f: LocationFilter, state: string): Option<string> {
    match Find(data, f, state)
    case Some(i) => Some(data[i].geocode)
    case None => None
  }

  /** The answer of `findGeocodeByLocation`, by priority: an exact city
      match when a city is given, else the county's default record when a
      county is given, else the state's default record. */
  function GeocodeByLocation(data: seq<LocationData>, state: string, county: Option<string>, city: Option<string>): (r: Option<string>)
    ensures r.Some? ==> GeocodeInState(data, state, r.value)
  {
    GeocodeOfInState(data, ExactCity(county, if city.Some? then city.value else ""), state);
    GeocodeOfInState(data, CountyDefault(if county.Some? then county.value else ""), state);
    GeocodeOfInState(data, StateDefault, state);
    var exact := if Truthy(city) then GeocodeOf(data, ExactCity(county, city.value), state) else None;
    var byCounty := if Truthy(county) then GeocodeOf(data, CountyDefault(county.value), state) else None;
    if exact.Some? then exact
    else if byCounty.Some? then byCounty
    else GeocodeOf(data, StateDefault, state)
  }

  /** Some record of `state` carries geocode `g`. */
  predicate GeocodeInState(data: seq<LocationData>, state: string, g: string) {
    exists i :: 0 <= i < |data| && data[i].stateName == state && data[i].geocode == g
  }

  /** Every filter checks the state first, so a found geocode belongs to a
      record of the requested state. */
  lemma GeocodeOfInState(data: seq<LocationData>, f: LocationFilter, state: string)
    ensures GeocodeOf(data, f, state).Some? ==> GeocodeInState(data, state, GeocodeOf(data, f, state).value)
  {
    if Find(data, f, state).Some? {
      var i := Find(data, f, state).value;
      assert data[i].stateName == state;
    }
  }

  /** The filters `findGeocodeByLocation` pushes, in the order it tries them. */
  function Filters(county: Option<string>, city: Option<string>): seq<LocationFilter> {
    (if Truthy(city) then [ExactCity(county, city.value)] else []) +
    (if Truthy(county) then [CountyDefault(county.value)] else []) +
    [StateDefault]
  }

  /** `findGeocodeByLocation`: pushes the filters that apply, then returns
      on the first one that finds a record. */
  method FindGeocodeByLocation(data: seq<LocationData>, state: string, county: Option<string>, city: Option<string>)
    returns (r: Option<string>)
    ensures r == GeocodeByLocation(data, state, county, city)
  {
    var filters: seq<LocationFilter> := [];
    if Truthy(city) {
      filters := filters + [ExactCity(county, city.value)];
    }
    if Truthy(county) {
      filters := filters + [CountyDefault(county.value)];
    }
    filters := filters + [StateDefault];
    assert filters == Filters(county, city);
    var k := 0;
    while k < |filters|
      invariant 0 <= k <= |filters|
      invariant forall j :: 0 <= j < k ==> GeocodeOf(data, filters[j], state).None?
    {
      var m := Find(data, filters[k], state);
      if m.Some? {
        FirstAnsweringFilter(data, state, county, city, k);
        return Some(data[m.value].geocode);
      }
      k := k + 1;
    }
    NoAnsweringFilter(data, state, county, city);
    return None;
  }

  /** The first pushed filter that finds a record gives the answer. */
  lemma FirstAnsweringFilter(data: seq<LocationData>, state: string, county: Option<string>, city: Option<string>, k: nat)
    requires k < |Filters(county, city)|
    requires forall j :: 0 <= j < k ==> GeocodeOf(data, Filters(county, city)[j], state).None?
    requires GeocodeOf(data, Filters(county, city)[k], state).Some?
    ensures GeocodeByLocation(data, state, county, city) == GeocodeOf(data, Filters(county, city)[k], state)
  {
    var fs := Filters(county, city);
    if Truthy(city) && Truthy(county) {
      assert fs == [ExactCity(county, city.value), CountyDefault(county.value), StateDefault];
    } else if Truthy(city) {
      assert fs == [ExactCity(county, city.value), StateDefault];
    } else if Truthy(county) {
      assert fs == [CountyDefault(county.value), StateDefault];
    } else {
      assert fs == [StateDefault];
    }
    if k > 0 {
      assert GeocodeOf(data, fs[0], state).None?;
    }
    if k > 1 {
      assert GeocodeOf(data, fs[1], state).None?;
    }
  }

  /** When no pushed filter finds a record, there is no answer. */
  lemma NoAnsweringFilter(data: seq<LocationData>, state: string, county: Option<string>, city: Option<string>)
    requires forall j :: 0 <= j < |Filters(county, city)| ==> GeocodeOf(data, Filters(county, city)[j], state).None?
    ensures GeocodeByLocation(data, state, county, city) == None
  {
    var fs := Filters(county, city);
    assert fs[|fs| - 1] == StateDefault;
    if Truthy(city) {
      assert fs[0] == ExactCity(county, city.value);
    }
    if Truthy(county) {
      assert fs[if Truthy(city) then 1 else 0] == CountyDefault(county.value);
    }
  }

  /** Step one: a non-empty city with an exact state, county and city match
      yields the geocode of the first such record. */
  lemma CityStep(data: seq<LocationData>, state: string, county: Option<string>, city: Option<string>, i: int)
    requires Truthy(city)
    requires IsFirstMatch(data, ExactCity(county, city.value), state, i)
    ensures GeocodeByLocation(data, state, county, city) == Some(data[i].geocode)
  {
    FirstMatchUnique(data, ExactCity(county, city.value), state, i);
  }

  /** Step two: failing step one, a non-empty county with a county-default
      record yields the geocode of the first one. */
  lemma CountyStep(data: seq<LocationData>, state: string, county: Option<string>, city: Option<string>, i: int)
    requires Truthy(city) ==> forall j :: 0 <= j < |data| ==> !Accepts(ExactCity(county, city.value), state, data[j])
    requires Truthy(county)
    requires IsFirstMatch(data, CountyDefault(county.value), state, i)
    ensures GeocodeByLocation(data, state, county, city) == Some(data[i].geocode)
  {
    FirstMatchUnique(data, CountyDefault(county.value), state, i);
  }

  /** Step three: failing both, the first state-default record of `state`
      answers, whatever county or city was asked for. */
  lemma StateStep(data: seq<LocationData>, state: string, county: Option<string>, city: Option<string>, i: int)
    requires Truthy(city) ==> forall j :: 0 <= j < |data| ==> !Accepts(ExactCity(county, city.value), state, data[j])
    requires Truthy(county) ==> forall j :: 0 <= j < |data| ==> !Accepts(CountyDefault(county.value), state, data[j])
    requires IsFirstMatch(data, StateDefault, state, i)
    ensures GeocodeByLocation(data, state, county, city) == Some(data[i].geocode)
  {
    FirstMatchUnique(data, StateDefault, state, i);
  }

  /** There is no answer exactly when no step finds a record. */
  lemma NotFound(data: seq<LocationData>, state: string, county: Option<string>, city: Option<string>)
    ensures GeocodeByLocation(data, state, county, city).None? <==>
      (forall j :: 0 <= j < |data| ==> !Accepts(StateDefault, state, data[j])) &&
      (Truthy(city) ==> forall j :: 0 <= j < |data| ==> !Accepts(ExactCity(county, city.value), state, data[j])) &&
      (Truthy(county) ==> forall j :: 0 <= j < |data| ==> !Accepts(CountyDefault(county.value), state, data[j]))
  {
  }

  /** A state that no record names resolves to nothing. */
  lemma UnknownState(data: seq<LocationData>, state: string, county: Option<string>, city: Option<string>)
    requires forall j :: 0 <= j < |data| ==> data[j].stateName != state
    ensures GeocodeByLocation(data, state, county, city) == None
  {
    NotFound(data, state, county, city);
  }

  /** `data.find` returns the first match, so there is only one. */
  lemma FirstMatchUnique(data: seq<LocationData>, f: LocationFilter, state: string, i: int)
    requires IsFirstMatch(data, f, state, i)
    ensures Find(data, f, state) == Some(i)
  {
    var r := Find(data, f, state);
    assert r.Some?;
    assert !(r.value < i) && !(i < r.value);
  }

  // ---------------------------------------------------------------------
  // findLocationByGeocode and buildLocationForGeocode
  // ---------------------------------------------------------------------

  /** A county or city as the user sees it: the reserved name is shown blank. */
  function Shown(name: string, reserved: string): string {
    if name == reserved then "" else name
  }

  /** A record as `findLocationByGeocode` returns it. */
  function Located(item: LocationData): GeocodeLocation {
    GeocodeLocation(item.geocode, item.stateName,
                    Shown(item.countyName, DefaultCounty), Shown(item.cityName, DefaultCity))
  }

  /** `i` is the first position holding `geocode`. */
  predicate FirstWithGeocode(data: seq<LocationData>, geocode: string, i: int) {
    0 <= i < |data| && data[i].geocode == geocode &&
    forall j :: 0 <= j < i ==> data[j].geocode != geocode
  }

  /** `findLocationByGeocode`: the first record with that geocode, with the
      reserved county and city names blanked; nothing when no record has it. */
  function LocationByGeocode(data: seq<LocationData>, geocode: string): (r: Option<GeocodeLocation>)
    ensures r.None? <==> forall j :: 0 <= j < |data| ==> data[j].geocode != geocode
    ensures r.Some? ==> exists i :: FirstWithGeocode(data, geocode, i) && r.value == Located(data[i])
  {
    LocationFrom(data, geocode, 0)
  }

  function LocationFrom(data: seq<LocationData>, geocode: string, from: nat): (r: Option<GeocodeLocation>)
    requires from <= |data|
    requires forall j :: 0 <= j < from ==> data[j].geocode != geocode
    ensures r.None? <==> forall j :: 0 <= j < |data| ==> data[j].geocode != geocode
    ensures r.Some? ==> exists i :: FirstWithGeocode(data, geocode, i) && r.value == Located(data[i])
    decreases |data| - from
  {
    if from == |data| then None
    else if data[from].geocode == geocode then
      assert FirstWithGeocode(data, geocode, from);
      Some(Located(data[from]))
    else LocationFrom(data, geocode, from + 1)
  }

  /** `buildLocationForGeocode`: the state as given, an absent or empty
      county or city replaced by its reserved name. */
  function BuildLocationForGeocode(state: string, county: Option<string>, city: Option<string>): (r: LocationQuery)
    ensures r.state == state
    ensures r.county == (if Truthy(county) then county.value else DefaultCounty)
    ensures r.city == (if Truthy(city) then city.value else DefaultCity)
    ensures r.county != "" && r.city != ""
  {
    LocationQuery(
      state,
      if Truthy(county) then county.value else DefaultCounty,
      if Truthy(city) then city.value else DefaultCity)
  }

  /** Building a query from a displayed location restores the names stored
      in the record, as long as the record does not store empty names. */
  lemma BuildRestoresShown(item: LocationData)
    requires item.countyName != "" && item.cityName != ""
    ensures BuildLocationForGeocode(item.stateName,
                                    Some(Shown(item.countyName, DefaultCounty)),
                                    Some(Shown(item.cityName, DefaultCity)))
            == LocationQuery(item.stateName, item.countyName, item.cityName)
  {
  }

  // ---------------------------------------------------------------------
  // the two directions together
  // ---------------------------------------------------------------------

  /** No two records share a geocode. */
  ghost predicate UniqueGeocodes(data: seq<LocationData>) {
    forall i, j :: 0 <= i < |data| && 0 <= j < |data| && data[i].geocode == data[j].geocode ==> i == j
  }

  /** Resolving a selection to a geocode and that geocode back to a location
      gives the requested state, and the county and city of the step that
      answered: both as asked for an exact city match, the county with a
      blank city for a county default, both blank for the state default. */
  lemma ResolveThenLocate(data: seq<LocationData>, state: string, county: Option<string>, city: Option<string>)
    requires UniqueGeocodes(data)
    requires GeocodeByLocation(data, state, county, city).Some?
    ensures var g := GeocodeByLocation(data, state, county, city).value;
      var exact := Truthy(city) && Find(data, ExactCity(county, city.value), state).Some?;
      var countyDefault := !exact && Truthy(county) && Find(data, CountyDefault(county.value), state).Some?;
      LocationByGeocode(data, g) == Some(
        if exact then GeocodeLocation(g, state, Shown(county.value, DefaultCounty), Shown(city.value, DefaultCity))
        else if countyDefault then GeocodeLocation(g, state, Shown(county.value, DefaultCounty), "")
        else GeocodeLocation(g, state, "", ""))
  {
    var g := GeocodeByLocation(data, state, county, city).value;
    var exact := Truthy(city) && Find(data, ExactCity(county, city.value), state).Some?;
    var countyDefault := !exact && Truthy(county) && Find(data, CountyDefault(county.value), state).Some?;
    var k: nat;
    if exact {
      k := Find(data, ExactCity(county, city.value), state).value;
    } else if countyDefault {
      k := Find(data, CountyDefault(county.value), state).value;
    } else {
      k := Find(data, StateDefault, state).value;
    }
    assert data[k].geocode == g;
    var loc := LocationByGeocode(data, g);
    var i :| FirstWithGeocode(data, g, i) && loc.value == Located(data[i]);
    assert i == k;
  }

  /** A state default `TX00` and a Travis county default `TX01`. A county that has no records falls back to the state
      default, because the state-level filter ignores the county asked for. */
  lemma TravisExample()
    ensures var data := [
        LocationData("TX00", "", DefaultCity, DefaultCounty, "TX", ""),
        LocationData("TX01", "", DefaultCity, "Travis", "TX", "")];
      GeocodeByLocation(data, "TX", Some("Travis"), None) == Some("TX01") &&
      GeocodeByLocation(data, "TX", None, None) == Some("TX00") &&
      GeocodeByLocation(data, "TX", Some("Hays"), None) == Some("TX00") &&
      GeocodeByLocation(data, "OK", Some("Travis"), None) == None
  {
    var data := [
      LocationData("TX00", "", DefaultCity, DefaultCounty, "TX", ""),
      LocationData("TX01", "", DefaultCity, "Travis", "TX", "")];
    CountyStep(data, "TX", Some("Travis"), None, 1);
    StateStep(data, "TX", None, None, 0);
    assert !Accepts(CountyDefault("Hays"), "TX", data[0]) && !Accepts(CountyDefault("Hays"), "TX", data[1]);
    StateStep(data, "TX", Some("Hays"), None, 0);
    UnknownState(data, "OK", Some("Travis"), None);
  }

}
