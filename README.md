# Tax-rate training repository: verified model of its core logic

This project is a Dafny model of the self-contained logic in a small
tax-rate application and its companion scripts. Each piece is modelled in
its own module, and each module states and proves what the code promises.

- **Location resolver** (`CsvParser`, csvParser.ts):
  - `parseCSV` reads the location CSV into rows.
  - Three functions build the state, county and city dropdowns. Each list is sorted, free of duplicates, and leaves out the `DEFAULT COUNTY`/`DEFAULT CITY` sentinels.
  - `findGeocodeByLocation` resolves a (state, county?, city?) selection to a geocode. It tries an exact city match first, then the county default, then the state default.
  - `findLocationByGeocode` and `buildLocationForGeocode` go back the other way.
- **DTO mapper** (`RateMapper`, rateMapper.cs): copies eight columns between the roughly 150-column `Rate` entity and the `RateDto`.
- **CSV-to-JSON converter** (`CsvToJson`, csv_to_json.py):
  - `convert_data_types` classifies each cell.
  - `format_output` reshapes the records into the `records`, `list`, `dict` or `values` orientation.
- **Console counter** (`TestApp`, Program.cs): the class `Program` has a 32-bit field `x`, the derived property `Y`, the guard `IsValid` and the throwing `Increment18`. Its xUnit scenarios are modelled as a method.
- **Rate detail dialog** (`RateDetailModal`, RateDetailModal.tsx):
  - the display label for a column name;
  - the numeric and date classifiers;
  - the choice of widget for a field (GEOCODE is never editable);
  - the fields shown.
- **Rate list search** (`RateList`, RateList.tsx): the case-insensitive search box filter.
- **Shared helpers** (`Strings`, `Sequences`): JavaScript and Python string primitives (`trim`, one-character `split`/`join`, ASCII case mapping, `includes`, the default `sort` order) and an order-preserving `Filter`.

`findGeocodeByLocation`'s state-level filter ignores the county and the
city. So a county that no record names still resolves to the state's
default geocode, not to null (see `CsvParser.StateStep` and
`CsvParser.TravisExample`).

The counter's guard holds for `8 < x <= int.MaxValue - 10`: above that,
`x + 10` wraps around to a negative `Y`. So `Increment18` keeps an instance
valid except from the top of that range. `TestApp.Program.Increment18`
states this, and `TestApp.IncrementAtTopOfRange` shows it.

## Model

| member | source | states |
|---|---|---|
| CsvParser.ParseCsv | frontend/src/utils/csvParser.ts:20-34 | one row per line after the header of the trimmed text; each row's keys are exactly the header names, each holding the same-index value or `''` when the line is short (the last column wins for a repeated header) |
| CsvParser.FillRow | frontend/src/utils/csvParser.ts:28-30 | the row filled by the `forEach` has exactly the header names as keys, each holding its column's value or `''` |
| CsvParser.RowFitsStep | frontend/src/utils/csvParser.ts:28-30 | one more `row[header] = value` assignment extends the row invariant to one more column |
| CsvParser.RowKeysStep | frontend/src/utils/csvParser.ts:29 | after the assignment, the row's keys are exactly the first j+1 headers |
| CsvParser.RowValuesStep | frontend/src/utils/csvParser.ts:29 | after the assignment, every header not repeated later holds its own column's value |
| CsvParser.UniqueStates | frontend/src/utils/csvParser.ts:59-66 | the result is strictly ascending (so duplicate-free) and holds exactly the non-empty, non-sentinel STATE_NAMEs of the data |
| CsvParser.CountiesByState | frontend/src/utils/csvParser.ts:68-76 | strictly ascending; holds exactly the non-empty, non-sentinel COUNTY_NAMEs of records whose STATE_NAME is the given state |
| CsvParser.CitiesByStateAndCounty | frontend/src/utils/csvParser.ts:78-86 | strictly ascending; holds exactly the non-empty, non-sentinel CITY_NAMEs of records matching both state and county |
| CsvParser.SelectedNames | frontend/src/utils/csvParser.ts:70-72 | `filter(select).map(name)` holds a name exactly when some selected record carries it |
| CsvParser.SelectedName | frontend/src/utils/csvParser.ts:70-72 | the same membership fact for one name |
| CsvParser.DistinctListed | frontend/src/utils/csvParser.ts:73-75 | `Array.from(new Set(...)).sort()` after the sentinel filter is strictly ascending and holds exactly the listed names of its input |
| CsvParser.Find | frontend/src/utils/csvParser.ts:119 | `data.find` returns the first position whose record passes the filter; it returns nothing exactly when no record passes |
| CsvParser.FindFrom | frontend/src/utils/csvParser.ts:119 | the scan from a position past which nothing matched finds the first match, or none exactly when none exists |
| CsvParser.GeocodeByLocation | frontend/src/utils/csvParser.ts:89-126 | the reference answer by priority (exact city, then county default, then state default); any geocode it gives belongs to a record of the requested state |
| CsvParser.GeocodeOfInState | frontend/src/utils/csvParser.ts:95-116 | each pushed filter tests the state first, so `find` only ever returns a record of the requested state |
| CsvParser.FindGeocodeByLocation | frontend/src/utils/csvParser.ts:89-126 | the loop over the pushed filters returns the geocode of the first filter's first match, in priority order city, county, state, and null otherwise |
| CsvParser.FirstAnsweringFilter | frontend/src/utils/csvParser.ts:118-123 | the first pushed filter that finds a record decides the answer |
| CsvParser.NoAnsweringFilter | frontend/src/utils/csvParser.ts:118-125 | when no pushed filter finds a record, the answer is null |
| CsvParser.CityStep | frontend/src/utils/csvParser.ts:93-100 | a non-empty city with an exact state/county/city match yields the geocode of the first such record |
| CsvParser.CountyStep | frontend/src/utils/csvParser.ts:102-109 | failing the city step, a non-empty county with a `DEFAULT CITY` record of that state and county yields the first such geocode |
| CsvParser.StateStep | frontend/src/utils/csvParser.ts:111-116 | failing both, the first `DEFAULT COUNTY`/`DEFAULT CITY` record of the state answers, whatever county or city was asked for |
| CsvParser.NotFound | frontend/src/utils/csvParser.ts:118-125 | the answer is null exactly when no applicable step has a matching record |
| CsvParser.UnknownState | frontend/src/utils/csvParser.ts:95-116 | a state no record names resolves to null |
| CsvParser.FirstMatchUnique | frontend/src/utils/csvParser.ts:119 | the first match is unique, so `find` returns exactly it |
| CsvParser.LocationByGeocode | frontend/src/utils/csvParser.ts:128-139 | null exactly when no record has the geocode; otherwise the first such record, with the state copied and COUNTY/CITY blanked exactly when they are the sentinels |
| CsvParser.LocationFrom | frontend/src/utils/csvParser.ts:129 | the scan behind `find` for a geocode, with the same guarantee from a starting position |
| CsvParser.BuildLocationForGeocode | frontend/src/utils/csvParser.ts:142-148 | the state is kept, and an absent or empty county or city becomes its sentinel, so the query never has an empty county or city (the first three ensures spell out the defaults of the or-operator; the round trip is `CsvParser.BuildRestoresShown`) |
| CsvParser.BuildRestoresShown | frontend/src/utils/csvParser.ts:128-148 | building a query from a located record restores the record's stored names |
| CsvParser.ResolveThenLocate | frontend/src/utils/csvParser.ts:89-139 | with unique geocodes, locating the resolved geocode gives back the requested state with the county and city of the step that answered: both as asked for an exact city match, the county and a blank city for a county default, both blank for the state default |
| CsvParser.TravisExample | frontend/src/utils/csvParser.ts:89-126 | with a state default and a Travis county default: Travis without a city gives the county default, no county and an unknown county give the state default, an unknown state gives null |
| RateMapper.ToRateEntity | backend-api/mappers/rateMapper.cs:20-33 | mapping the entity back gives the same DTO, and every unmapped column holds its declared default |
| RateMapper.DtoCopiesMappedColumns | backend-api/mappers/rateMapper.cs:6-19 | the DTO's eight fields are GEOCODE, STATE_NAME, COUNTY_NAME, CITY_NAME, the three first sales rates and EFFECTIVE_DATE of the entity |
| RateMapper.DtoDependsOnlyOnMappedColumns | backend-api/mappers/rateMapper.cs:8-18 | two entities give the same DTO if and only if they agree on the eight mapped columns |
| RateMapper.EntityFromDto | backend-api/mappers/rateMapper.cs:22-32 | the new entity carries the DTO's fields in the same columns; its other strings are empty, its other decimals and UpdatedAt are null, and CreatedAt is the clock |
| RateMapper.EntityRoundTrip | backend-api/mappers/rateMapper.cs:6-33 | entity to DTO and back keeps the mapped columns, and gives the same entity if and only if every other column held its default |
| RateMapper.EntityRoundTripLosesZip | backend-api/models/rate.cs:14-15 | a non-empty ZIP column does not survive the trip through the DTO: neither mapper in backend-api/mappers/rateMapper.cs:6-33 maps it, so it comes back as its empty-string default |
| CsvToJson.Lookup | copilot/csv_to_json.py:133 | `row[col]` is missing exactly when the key is not in the row |
| CsvToJson.LookupFinds | copilot/csv_to_json.py:133 | a found value is the one stored under the key's first entry |
| CsvToJson.Assign | copilot/csv_to_json.py:92 | `d[key] = v` makes the key read `v`; on a present key only that key's first entry changes, to the new value, every other entry staying as it was; a new key is appended |
| CsvToJson.AssignKeepsOthers | copilot/csv_to_json.py:92 | `d[key] = v` leaves the value read under every other key unchanged |
| CsvToJson.DigitsOfDecimal | copilot/csv_to_json.py:95-96 | `int(str(n)) == n` for the decimal spelling of a natural number |
| CsvToJson.ConvertCell | copilot/csv_to_json.py:91-100 | `''` becomes None; then `true`/`false` in any letter case becomes the matching boolean; then an all-digit cell becomes the integer it spells; then, and only then, a cell `_is_float` accepts becomes a float keeping its text; anything else stays the same string |
| CsvToJson.ConvertsDecimal | copilot/csv_to_json.py:95-96 | the decimal spelling of `n` converts to the integer `n` |
| CsvToJson.ConvertRow | copilot/csv_to_json.py:89-101 | the converted row keeps the row's length and keys, in order, with each cell converted |
| CsvToJson.ConvertRowStep | copilot/csv_to_json.py:90-100 | one more `converted_row[key] = ...` assignment extends the converted prefix by one cell |
| CsvToJson.ConvertDataTypes | copilot/csv_to_json.py:73-103 | returns the data unchanged when `auto_convert` is false or the data is empty; otherwise has the same number of rows, each row converted cell by cell with its keys kept |
| CsvToJson.ConvertCellAsWritten | copilot/csv_to_json.py:95-96 | with `isNonDecimalDigit` standing for the characters `isdigit` accepts besides the decimal digits, the code as written raises on a non-empty, non-boolean cell of such characters and ASCII digits that is not all ASCII digits; whenever it does not raise it agrees with `CsvToJson.ConvertCell` |
| CsvToJson.SuperscriptCellRaises | copilot/csv_to_json.py:95-96 | with the superscript digits among the non-decimal digits, the cell `"²"` raises ValueError as written, where the intended conversion keeps it as a string |
| CsvToJson.Project | copilot/csv_to_json.py:133 | `[row[col] for col in headers]` succeeds exactly when every column is in the row, giving the values in column order; otherwise it raises KeyError on a missing column |
| CsvToJson.Rows | copilot/csv_to_json.py:133 | the row-major data succeeds exactly when every record has every column, with one value row per record; otherwise it raises KeyError on a column missing somewhere |
| CsvToJson.Column | copilot/csv_to_json.py:138 | `[row[key] for row in data]` has one value per record, or raises KeyError(key) when a record lacks the key |
| CsvToJson.DictColumns | copilot/csv_to_json.py:136-139 | the `dict` loop succeeds exactly when every record has every first-row key; an error names a key that is missing somewhere |
| CsvToJson.DictColumnsFirstError | copilot/csv_to_json.py:137-138 | the loop stops with the error of the first key whose column fails |
| CsvToJson.DictColumnsEntries | copilot/csv_to_json.py:136-139 | with distinct keys, the result has one entry per key, in order, holding that key's column |
| CsvToJson.Formatted | copilot/csv_to_json.py:113-144 | empty data gives `[]` under every orientation; an unsupported orientation raises ValueError naming it; `records` returns the records; `list`, `dict` and `values` succeed exactly when every record has the first row's keys, and a KeyError names a first-row key missing somewhere |
| CsvToJson.FormatOutput | copilot/csv_to_json.py:113-144 | the method, with its `dict` loop, computes exactly `Formatted` |
| CsvToJson.ListOrientation | copilot/csv_to_json.py:129-134 | `list` gives `columns` equal to the first row's keys and `data` with one value row per record, in column order |
| CsvToJson.ValuesOrientation | copilot/csv_to_json.py:140-142 | `values` gives the header row followed by one value row per record, `len(data) + 1` rows in all |
| CsvToJson.DictOrientation | copilot/csv_to_json.py:135-139 | `dict` maps each first-row key, in order, to the list of that column's values, of length `len(data)` |
| TestApp.Wrap | prompt_enginering/TestApp/Program.cs:8 | unchecked C# `int` arithmetic: the result is congruent to the exact value modulo 2^32, and equal to it when it fits |
| TestApp.Program.constructor | prompt_enginering/TestApp/Program.cs:6 | a new instance has `x == 0` |
| TestApp.Program.Y | prompt_enginering/TestApp/Program.cs:8 | `Y == x + 10` unless that overflows, in which case it wraps by 2^32 |
| TestApp.Program.SetX | prompt_enginering/TestApp/Program.cs:10 | sets `x` to the value, so `Y == value + 10` when that fits |
| TestApp.Program.IsValid | prompt_enginering/TestApp/Program.cs:12-15 | `Y > 18` holds exactly when `8 < x <= int.MaxValue - 10` |
| TestApp.Program.Increment18 | prompt_enginering/TestApp/Program.cs:17-23 | on a valid instance, `x` goes up by exactly 1 and the instance stays valid exactly when `x` was below the top of the valid range; on an invalid one it throws "Invalid operation" and leaves `x` unchanged |
| TestApp.UnitTestScenarios | TestApp.Tests/UnitTest1.cs:10-71 | the five xUnit scenarios: `Y == 20` after `SetX(10)`; valid after `SetX(10)`; invalid after `SetX(5)`; `Y == 21` after an increment from 10; "Invalid operation" from 5 |
| TestApp.IncrementAtTopOfRange | prompt_enginering/TestApp/Program.cs:12-23 | from `x == int.MaxValue - 10` one increment succeeds and the next throws |
| RateDetailModal.Capitalize | frontend/src/components/RateDetailModal.tsx:30 | each word keeps its length, with the first character upper-cased and the rest lower-cased |
| RateDetailModal.CapitalizeAvoids | frontend/src/components/RateDetailModal.tsx:30 | capitalizing introduces no character that is not a letter |
| RateDetailModal.CapitalizeAll | frontend/src/components/RateDetailModal.tsx:30 | the mapped words correspond one to one to the segments, each capitalized |
| RateDetailModal.NormalizeFieldName | frontend/src/components/RateDetailModal.tsx:27-32 | the label contains no `_` and has the name's length |
| RateDetailModal.NormalizedWords | frontend/src/components/RateDetailModal.tsx:27-32 | for a name without spaces, the label's space-separated words are exactly the name's `_`-separated segments, one to one and in order, each capitalized |
| RateDetailModal.NumericFieldIff | frontend/src/components/RateDetailModal.tsx:35-44 | `isNumericField` holds exactly when the value is a number and one of RATE, MINIMUM, MAXIMUM, AMOUNT, TAX occurs in the name |
| RateDetailModal.DateFieldIff | frontend/src/components/RateDetailModal.tsx:47-49 | `isDateField` holds exactly when one of DATE, CREATED, UPDATED occurs in the name |
| RateDetailModal.Displayed | frontend/src/components/RateDetailModal.tsx:52-54 | an entry passes the `excludedFields` filter exactly when its key is neither `createdAt` nor `updatedAt` |
| RateDetailModal.RenderFieldValue | frontend/src/components/RateDetailModal.tsx:138-200 | an editor exactly when editing and the field is not GEOCODE; a number input exactly for a numeric field; a date input exactly for a non-numeric date field; a percentage exactly for a displayed number whose lower-cased name holds "rate", and a plain number exactly for any other displayed number; a locale date exactly for a displayed truthy non-numeric value of a date field; "N/A" exactly for a displayed null, undefined or empty value |
| RateDetailModal.GeocodeNeverEditable | frontend/src/components/RateDetailModal.tsx:139 | the GEOCODE field is never rendered as an input |
| RateDetailModal.RateColumnsShowAsPercentage | frontend/src/components/RateDetailModal.tsx:185-189 | outside editing, every number in a column whose name contains RATE (the classifier's test at RateDetailModal.tsx:35-44) shows as a percentage, because the display's lower-cased test agrees with it |
| RateDetailModal.NumericBeforeDate | frontend/src/components/RateDetailModal.tsx:140-160 | a number under a name that is both numeric and date-like gets a number input |
| RateDetailModal.DisplayedEntries | frontend/src/components/RateDetailModal.tsx:208-209 | the displayed entries are a subsequence of the record's entries, in order |
| RateDetailModal.DisplayedEntriesMembers | frontend/src/components/RateDetailModal.tsx:52-54 | an entry is displayed exactly when it is in the record and its key is neither `createdAt` nor `updatedAt` |
| RateDetailModal.DisplayedEntriesAll | frontend/src/components/RateDetailModal.tsx:208-209 | a record without tracking fields is displayed whole |
| RateList.FilteredRates | frontend/src/components/RateList.tsx:37-42 | the filtered list is an order-preserving subsequence of the rates |
| RateList.FilteredRatesMembers | frontend/src/components/RateList.tsx:37-42 | a rate is kept exactly when it is in the list and its lower-cased GEOCODE, STATE, COUNTY or CITY (missing read as `''`) contains the lower-cased term |
| RateList.EmptySearchKeepsAll | frontend/src/components/RateList.tsx:37-42 | an empty search term keeps every rate |
| RateList.LongerSearchNarrows | frontend/src/components/RateList.tsx:37-42 | under ASCII case mapping, extending the search term gives a subsequence of the previous result |
| RateList.SearchIgnoresCase | frontend/src/components/RateList.tsx:37-42 | under ASCII case mapping, the upper-cased term filters exactly like the term itself |
| Strings.Trim | frontend/src/utils/csvParser.ts:21 | `trim()` is an infix of the text, with only whitespace cut off either side, and it neither starts nor ends with whitespace |
| Strings.Split | frontend/src/utils/csvParser.ts:21-25 | `split` on one character gives at least one piece, and no piece holds the separator |
| Strings.JoinSplit | frontend/src/components/RateDetailModal.tsx:29-31 | joining the pieces of a split with the same separator gives back the string |
| Strings.SplitJoin | frontend/src/components/RateDetailModal.tsx:29-31 | splitting a join of separator-free pieces gives back the pieces |
| Strings.Includes | frontend/src/components/RateList.tsx:38-41 | `includes` holds exactly when the term occurs at some position |
| Strings.IncludesPrefix | frontend/src/components/RateList.tsx:38-41 | a text that includes `t + u` includes `t` |
| Strings.IncludesLower | frontend/src/components/RateDetailModal.tsx:187 | lower-casing both sides keeps an occurrence |
| Strings.Lower | frontend/src/components/RateList.tsx:38 | ASCII `toLowerCase` maps each character on its own, keeping the length |
| Strings.LessTransitive | frontend/src/utils/csvParser.ts:65 | the default sort order is transitive |
| Strings.LessTotal | frontend/src/utils/csvParser.ts:65 | any two distinct strings are ordered one way or the other |
| Strings.SortedDistinct | frontend/src/utils/csvParser.ts:65 | `Array.from(set).sort()` is strictly ascending and holds exactly the set's elements |
| Strings.AscendingDetermined | frontend/src/utils/csvParser.ts:65 | two strictly ascending lists with the same elements are equal |
| Sequences.Filter | frontend/src/components/RateList.tsx:37 | `Array.prototype.filter` keeps only passing elements and every passing element, as an order-preserving subsequence |
| Sequences.FilterCount | frontend/src/components/RateList.tsx:37 | each passing element is kept as many times as it occurs, and a failing one not at all |
| Sequences.FilterAppend | frontend/src/components/RateList.tsx:37 | filtering a concatenation concatenates the filtered parts |
| Sequences.FilterSingleton | frontend/src/components/RateList.tsx:37 | a one-element list is kept exactly when its element passes |
| Sequences.FilterMonotone | frontend/src/components/RateList.tsx:37 | a stronger test keeps a subsequence of what a weaker one keeps |

## Left out

- `loadLocationData` (csvParser.ts:36-57) fetches the CSV and keeps it in a static cache. The resolver functions take the records as an explicit sequence instead.
- The `as LocationData` cast of a parsed row (csvParser.ts:32) is not modelled: the resolver functions take records whose six fields are all strings. A CSV whose header lacks a column gives records where that field is `undefined`, and then JavaScript differs from a model that reads it as `''`. An `undefined` COUNTY_NAME equals an absent `county` argument in the exact-city filter (csvParser.ts:97), so such a record can answer the city step. An `undefined` field never equals `''`, so `findLocationByGeocode(data, '')`, `getCountiesByState(data, '')`, `getCitiesByStateAndCounty(data, state, '')` and `findGeocodeByLocation` with a `state` of `''` do not match it. These cases are outside the model.
- Case mapping covers ASCII letters only, one character to one character. The sort order compares characters by code point, where JavaScript compares UTF-16 code units; the two differ only for characters outside the Basic Multilingual Plane.
- CsvToJson.ConvertCell: Python's `isdigit` also accepts the other Unicode decimal digits (Arabic-Indic, Devanagari and so on), which `int` converts. The model treats only ASCII digits as decimal digits.
- CsvToJson.ConvertCellAsWritten: the characters `isdigit` accepts but `int` rejects (Unicode numeric type Digit: superscripts, subscripts `₀`-`₉`, circled digits `①`-`⑨`, Ethiopic digits and others) are the parameter `isNonDecimalDigit`, not an enumerated table. The limit of 4300 digits that `int` enforces on long digit strings since Python 3.11 is not modelled either: such a cell also raises ValueError there.
- CsvToJson.ConvertCell: `_is_float` and `float()` are a parameter `isFloat`, and a float cell keeps its text, because floating-point parsing is not modelled.
- CsvToJson.ConvertDataTypes requires, when it converts, that each row holds only strings and has distinct keys. These are what `csv.DictReader` produces, and a Python `dict` cannot hold a key twice. On a ragged line DictReader stores the extra values as a list under the `None` key and fills a short line's missing columns with `None`; either value makes `value.lower()` (csv_to_json.py:93) raise AttributeError, which aborts the conversion. The all-strings requirement excludes these rows, so that failure is not modelled.
- `read_csv`, `save_json`, `convert`, `main` and `_is_float` of csv_to_json.py are file I/O, `csv.Sniffer`, JSON and argument parsing.
- The percentage text and 3-decimal rounding, the `step`/`min` attributes of the number input, locale date formatting and `toISOString` in RateDetailModal.tsx are floating-point and locale work. The model records only which view is chosen.
- RateList.LongerSearchNarrows: holds under ASCII case mapping only. JavaScript's `toLowerCase` is context-sensitive for final sigma: `"aΣ"` lower-cases to `"aς"` but `"aΣb"` to `"aσb"`. So outside ASCII, the result for a longer term need not be a subsequence of the result for its prefix.
- RateList.SearchIgnoresCase: holds under ASCII case mapping only. JavaScript's `toUpperCase` can change the length (`"ß"` becomes `"SS"`), so outside ASCII the upper-cased term can find fewer rates.
- Strings.Lower: per-character ASCII mapping that keeps the length. JavaScript's `toLowerCase` can lengthen a string (`"İ"` becomes two code units) and depends on context (final sigma).
- RateDetailModal.RenderFieldValue: JavaScript truthiness of `NaN` is not modelled. Numbers are exact reals.
- The React state, effects and event handlers of RateDetailModal.tsx and RateList.tsx, and the total shown in RateList.tsx, are not modelled.
- RateMapper.ToRateEntity: the entity's `CreatedAt = DateTime.UtcNow` reads the clock, which is the parameter `now`. The 143 unmapped columns are grouped as two sequences, not named one by one.
- `Program.Main` writes to the console and is not modelled.
- rateService.ts (HTTP calls and a cached load), TaxRateForm.tsx (React effects and a debounce timer), the rateSource.cs controller (Entity Framework calls), ApplicationDbContext.cs, script.js (DOM and timers) and the browser tests are not part of this model.

## Findings

| source | as written | input that shows it | evidently intended | confidence | as-written member | corrected member |
|---|---|---|---|---|---|---|
| copilot/csv_to_json.py:95-96 | `value.isdigit()` is true for superscript digits, which `int(value)` rejects with ValueError, aborting the whole conversion | the cell `"²"` | digit cells become integers; any other cell falls through to the float test or stays a string | high, not executed | CsvToJson.SuperscriptCellRaises | CsvToJson.ConvertCell |
