/** The command-line CSV-to-JSON converter's two reshaping steps:
    `convert_data_types`, which classifies every cell of the rows a
    `csv.DictReader` produced, and `format_output`, which lays the rows out
    in one of four orientations. A Python dict is an insertion-ordered list
    of entries; the JSON-able values are `PyValue`. */
module CsvToJson {
  import opened Optional
  import opened Strings

  /** The Python values the converter produces. A float keeps the text it
      was parsed from: float parsing is not modelled. */
  datatype PyValue =
    | Null
    | Bool(b: bool)
    | Int(i: int)
    | Float(text: string)
    | Str(s: string)
    | List(items: seq<PyValue>)
    | Dict(entries: seq<Entry>)

  datatype Entry = Entry(key: string, value: PyValue)

  /** A Python dict, its entries in insertion order. */
  type Record = seq<Entry>

  datatype Error = KeyError(key: string) | ValueError(message: string)

  datatype Result<T> = Ok(value: T) | Err(error: Error)

  // ---------------------------------------------------------------------
  // dicts
  // ---------------------------------------------------------------------

  /** `row.keys()`. */
  function Keys(row: Record): (ks: seq<string>)
    ensures |ks| == |row|
    ensures forall j :: 0 <= j < |row| ==> ks[j] == row[j].key
  {
    if |row| == 0 then [] else [row[0].key] + Keys(row[1..])
  }

  /** A dict never holds a key twice. */
  predicate DistinctKeys(row: Record) {
    forall i, j :: 0 <= i < j < |row| ==> row[i].key != row[j].key
  }

  /** `row[key]`, or None where Python raises KeyError. */
  function Lookup(row: Record, key: string): (v: Option<PyValue>)
    ensures v.None? <==> key !in Keys(row)
  {
    if |row| == 0 then None
    else if row[0].key == key then Some(row[0].value)
    else Lookup(row[1..], key)
  }

  /** `row[j]` is the first entry of `row` with key `key`. */
  predicate FirstWithKey(row: Record, key: string, j: int) {
    0 <= j < |row| && row[j].key == key && forall k :: 0 <= k < j ==> row[k].key != key
  }

  /** A value found under a key is the value of the first entry with that
      key. */
  lemma {:induction false} LookupFinds(row: Record, key: string)
    requires Lookup(row, key).Some?
    ensures exists j :: FirstWithKey(row, key, j) && row[j].value == Lookup(row, key).value
  {
    if row[0].key != key {
      LookupFinds(row[1..], key);
      var tail := row[1..];
      assert Lookup(row, key) == Lookup(tail, key);
      var j :| FirstWithKey(tail, key, j) && tail[j].value == Lookup(tail, key).value;
      forall k | 0 <= k < j + 1
        ensures row[k].key != key || k == j + 1
      {
        if k > 0 {
          assert row[k] == tail[k - 1];
        }
      }
      assert row[j + 1] == tail[j];
      assert FirstWithKey(row, key, j + 1);
    } else {
      assert FirstWithKey(row, key, 0);
    }
  }

  /** `row[key] = v`: an existing key keeps its place and takes the new
      value, a new key is appended. */
  function Assign(row: Record, key: string, v: PyValue): (r: Record)
    ensures Lookup(r, key) == Some(v)
    ensures key in Keys(row) ==> Keys(r) == Keys(row)
    ensures key in Keys(row) ==> |r| == |row| && forall j :: 0 <= j < |row| ==> r[j] == AssignedAt(row, key, v, j)
    ensures key !in Keys(row) ==> r == row + [Entry(key, v)]
  {
    if |row| == 0 then [Entry(key, v)]
    else if row[0].key == key then
      AssignHead(row, v)
    else
      var rest := Assign(row[1..], key, v);
      AssignTail(row, key, v, rest);
      AssignTailAt(row, key, v, rest);
      [row[0]] + rest
  }

  /** Entry `j` of `row` after `row[key] = v` on a key it holds: the first
      entry with that key takes the new value, every other entry is kept. */
  function AssignedAt(row: Record, key: string, v: PyValue, j: int): Entry
    requires 0 <= j < |row|
  {
    if FirstWithKey(row, key, j) then Entry(key, v) else row[j]
  }

  function AssignHead(row: Record, v: PyValue): (r: Record)
    requires |row| > 0
    ensures Lookup(r, row[0].key) == Some(v)
    ensures Keys(r) == Keys(row)
    ensures |r| == |row| && forall j :: 0 <= j < |row| ==> r[j] == AssignedAt(row, row[0].key, v, j)
  {
    var r := [Entry(row[0].key, v)] + row[1..];
    assert forall j :: 0 <= j < |row| ==> Keys(r)[j] == Keys(row)[j];
    assert forall j :: 0 < j < |row| ==> !FirstWithKey(row, row[0].key, j);
    r
  }

  lemma AssignTail(row: Record, key: string, v: PyValue, rest: Record)
    requires |row| > 0 && row[0].key != key
    requires Lookup(rest, key) == Some(v)
    requires key in Keys(row[1..]) ==> Keys(rest) == Keys(row[1..])
    requires key !in Keys(row[1..]) ==> rest == row[1..] + [Entry(key, v)]
    ensures Lookup([row[0]] + rest, key) == Some(v)
    ensures key in Keys(row) ==> Keys([row[0]] + rest) == Keys(row)
    ensures key !in Keys(row) ==> [row[0]] + rest == row + [Entry(key, v)]
  {
    var r := [row[0]] + rest;
    assert r[1..] == rest;
    assert Keys(row) == [row[0].key] + Keys(row[1..]);
    assert Keys(r) == [row[0].key] + Keys(rest);
  }

  lemma AssignTailAt(row: Record, key: string, v: PyValue, rest: Record)
    requires |row| > 0 && row[0].key != key
    requires key in Keys(row[1..]) ==> |rest| == |row| - 1
    requires key in Keys(row[1..]) ==> forall j :: 0 <= j < |row| - 1 ==> rest[j] == AssignedAt(row[1..], key, v, j)
    ensures key in Keys(row) ==> forall j :: 0 <= j < |row| ==> ([row[0]] + rest)[j] == AssignedAt(row, key, v, j)
  {
    if key !in Keys(row) {
      return;
    }
    assert Keys(row) == [row[0].key] + Keys(row[1..]);
    var r := [row[0]] + rest;
    forall j | 0 <= j < |row|
      ensures r[j] == AssignedAt(row, key, v, j)
    {
      if j > 0 {
        FirstWithKeyTail(row, key, j);
        assert r[j] == rest[j - 1];
        assert row[j] == row[1..][j - 1];
      }
    }
  }

  /** `row[key] = v` leaves the value under every other key as it was. */
  lemma {:induction false} AssignKeepsOthers(row: Record, key: string, v: PyValue, k: string)
    requires k != key
    ensures Lookup(Assign(row, key, v), k) == Lookup(row, k)
  {
    if |row| > 0 && row[0].key != key {
      var r := Assign(row, key, v);
      assert r == [row[0]] + Assign(row[1..], key, v);
      assert r[1..] == Assign(row[1..], key, v);
      if row[0].key != k {
        AssignKeepsOthers(row[1..], key, v, k);
      }
    }
  }

  /** Past an entry with another key, the first entry with `key` is found
      one place further on. */
  lemma FirstWithKeyTail(row: Record, key: string, j: int)
    requires 0 < j < |row| && row[0].key != key
    ensures FirstWithKey(row, key, j) <==> FirstWithKey(row[1..], key, j - 1)
  {
    if FirstWithKey(row[1..], key, j - 1) {
      forall k | 0 <= k < j
        ensures row[k].key != key
      {
        if k > 0 {
          assert row[k] == row[1..][k - 1];
        }
      }
    }
  }

  // ---------------------------------------------------------------------
  // convert_data_types
  // ---------------------------------------------------------------------

  predicate IsAsciiDigit(c: char) { '0' <= c <= '9' }

  /** `s.isdigit()` over ASCII digits. */
  predicate IsDigits(s: string) {
    |s| > 0 && forall i :: 0 <= i < |s| ==> IsAsciiDigit(s[i])
  }

  /** `int(s)` of a digit string. */
  function DigitsValue(s: string): (n: nat)
    requires forall i :: 0 <= i < |s| ==> IsAsciiDigit(s[i])
  {
    if |s| == 0 then 0
    else
      var d := s[|s| - 1];
      assert IsAsciiDigit(d);
      DigitsValue(s[..|s| - 1]) * 10 + (d as int - '0' as int)
  }

  /** `str(n)`: the decimal digits of `n`, without leading zeros. */
  function DecimalString(n: nat): (s: string)
    ensures |s| > 0
    ensures forall i :: 0 <= i < |s| ==> IsAsciiDigit(s[i])
  {
    if n < 10 then [('0' as int + n) as char]
    else DecimalString(n / 10) + [('0' as int + n % 10) as char]
  }

  /** `int(str(n)) == n`. */
  lemma {:induction false} DigitsOfDecimal(n: nat)
    ensures DigitsValue(DecimalString(n)) == n
  {
    if n >= 10 {
      var s := DecimalString(n);
      DigitsOfDecimal(n / 10);
      assert s[..|s| - 1] == DecimalString(n / 10);
    }
  }

  /** One cell of `convert_data_types`, the float test `_is_float` given as
      `isFloat`: the empty string is None, `true`/`false` in any letter case
      a boolean, a digit string the integer it spells, a float literal a
      float, anything else the string itself. The tests run in that order,
      and every cell converts. */
  function ConvertCell(s: string, isFloat: string -> bool): (v: PyValue)
    ensures v.Null? <==> s == ""
    ensures v.Bool? <==> s != "" && (Lower(s) == "true" || Lower(s) == "false")
    ensures v.Bool? ==> (v.b <==> Lower(s) == "true")
    ensures v.Int? <==> s != "" && Lower(s) != "true" && Lower(s) != "false" && IsDigits(s)
    ensures v.Int? ==> v.i == DigitsValue(s)
    ensures v.Float? <==> s != "" && Lower(s) != "true" && Lower(s) != "false" && !IsDigits(s) && isFloat(s)
    ensures v.Float? ==> v.text == s
    ensures v.Str? ==> v.s == s
    ensures !v.List? && !v.Dict?
  {
    if s == "" then Null
    else if Lower(s) == "true" || Lower(s) == "false" then Bool(Lower(s) == "true")
    else if IsDigits(s) then Int(DigitsValue(s))
    else if isFloat(s) then Float(s)
    else Str(s)
  }

  /** The text of a number converts back to that number. */
  lemma ConvertsDecimal(n: nat, isFloat: string -> bool)
    ensures ConvertCell(DecimalString(n), isFloat) == Int(n)
  {
    var s := DecimalString(n);
    DigitsOfDecimal(n);
    assert Lower(s)[0] == s[0];
    assert Lower(s) != "true" && Lower(s) != "false";
  }

  /** Every cell of a row read from a CSV file is a string. */
  predicate AllText(row: Record) {
    forall j :: 0 <= j < |row| ==> row[j].value.Str?
  }

  /** The row `convert_data_types` builds: the same keys in the same order,
      each holding its converted cell. */
  function ConvertRow(row: Record, isFloat: string -> bool): (r: Record)
    requires AllText(row)
    ensures |r| == |row|
    ensures Keys(r) == Keys(row)
    ensures forall j :: 0 <= j < |row| ==> r[j] == Entry(row[j].key, ConvertCell(row[j].value.s, isFloat))
  {
    var r := seq(|row|, j requires 0 <= j < |row| => Entry(row[j].key, ConvertCell(row[j].value.s, isFloat)));
    assert forall j :: 0 <= j < |row| ==> Keys(r)[j] == Keys(row)[j];
    r
  }

  /** Assigning the next converted cell into the row built so far extends
      it by one entry: the keys of a dict are distinct, so the key is new. */
  lemma ConvertRowStep(row: Record, j: nat, isFloat: string -> bool)
    requires AllText(row) && DistinctKeys(row) && j < |row|
    ensures Assign(ConvertRow(row[..j], isFloat), row[j].key, ConvertCell(row[j].value.s, isFloat))
      == ConvertRow(row[..j + 1], isFloat)
  {
    var done := ConvertRow(row[..j], isFloat);
    assert row[j].key !in Keys(row[..j]);
    assert done + [Entry(row[j].key, ConvertCell(row[j].value.s, isFloat))] == ConvertRow(row[..j + 1], isFloat);
  }

  /** `convert_data_types(data, auto_convert)`: without conversion, or on
      no rows, the input itself; otherwise one converted row per row. */
  method ConvertDataTypes(data: seq<Record>, autoConvert: bool, isFloat: string -> bool)
    returns (converted: seq<Record>)
    requires autoConvert && |data| > 0 ==>
      forall i :: 0 <= i < |data| ==> AllText(data[i]) && DistinctKeys(data[i])
    ensures !autoConvert || |data| == 0 ==> converted == data
    ensures autoConvert && |data| > 0 ==>
      |converted| == |data| &&
      forall i :: 0 <= i < |data| ==> converted[i] == ConvertRow(data[i], isFloat)
  {
    if !autoConvert || |data| == 0 {
      return data;
    }
    converted := [];
    for i := 0 to |data|
      invariant |converted| == i
      invariant forall k :: 0 <= k < i ==> converted[k] == ConvertRow(data[k], isFloat)
    {
      var row := data[i];
      var convertedRow: Record := [];
      for j := 0 to |row|
        invariant convertedRow == ConvertRow(row[..j], isFloat)
      {
        ConvertRowStep(row, j, isFloat);
        convertedRow := Assign(convertedRow, row[j].key, ConvertCell(row[j].value.s, isFloat));
      }
      assert row[..|row|] == row;
      converted := converted + [convertedRow];
    }
  }

  /** The superscript digits: some of the characters that `str.isdigit`
      accepts but `int` rejects. */
  predicate IsSuperscriptDigit(c: char) {
    c == '¹' || c == '²' || c == '³' || c == '⁰' || ('⁴' <= c <= '⁹')
  }

  /** A cell of digits for `str.isdigit`, where `isNonDecimalDigit` stands
      for the characters it accepts besides the decimal digits. */
  predicate IsDigitLike(s: string, isNonDecimalDigit: char -> bool) {
    forall i :: 0 <= i < |s| ==> IsAsciiDigit(s[i]) || isNonDecimalDigit(s[i])
  }

  /** The cell conversion as written. `str.isdigit` also holds for strings of
      characters whose Unicode numeric type is Digit but not Decimal
      (superscripts, subscripts, circled digits and others, given here by
      `isNonDecimalDigit`); `int` rejects those and raises ValueError, which
      aborts the whole conversion. Whenever it does not raise, it agrees with
      `ConvertCell`. */
  function ConvertCellAsWritten(s: string, isNonDecimalDigit: char -> bool, isFloat: string -> bool): (r: Result<PyValue>)
    ensures r.Err? <==>
      s != "" && Lower(s) != "true" && Lower(s) != "false" &&
      IsDigitLike(s, isNonDecimalDigit) && exists i :: 0 <= i < |s| && !IsAsciiDigit(s[i])
    ensures r.Ok? ==> r.value == ConvertCell(s, isFloat)
  {
    if s == "" then Ok(Null)
    else if Lower(s) == "true" || Lower(s) == "false" then Ok(Bool(Lower(s) == "true"))
    else if IsDigitLike(s, isNonDecimalDigit) then
      if IsDigits(s) then Ok(Int(DigitsValue(s)))
      else Err(ValueError("invalid literal for int() with base 10: '" + s + "'"))
    else if isFloat(s) then Ok(Float(s))
    else Ok(Str(s))
  }

  /** The cell `²` aborts the conversion as written; converted as intended it
      stays a string (`float` rejects it as well). */
  lemma SuperscriptCellRaises(isFloat: string -> bool)
    requires !isFloat("²")
    ensures ConvertCellAsWritten("²", IsSuperscriptDigit, isFloat).Err?
    ensures ConvertCell("²", isFloat) == Str("²")
  {
    assert IsSuperscriptDigit("²"[0]);
    assert Lower("²")[0] == '²';
  }

  // ---------------------------------------------------------------------
  // format_output
  // ---------------------------------------------------------------------

  /** The keys of a dict as a JSON list of strings. */
  function Strs(ks: seq<string>): (vs: seq<PyValue>)
    ensures |vs| == |ks|
    ensures forall j :: 0 <= j < |ks| ==> vs[j] == Str(ks[j])
  {
    seq(|ks|, j requires 0 <= j < |ks| => Str(ks[j]))
  }

  /** Every record holds every key of `keys`. */
  predicate AllHave(data: seq<Record>, keys: seq<string>) {
    forall i, j :: 0 <= i < |data| && 0 <= j < |keys| ==> keys[j] in Keys(data[i])
  }

  /** Some record lacks `key`. */
  predicate MissingSomewhere(data: seq<Record>, key: string) {
    exists i :: 0 <= i < |data| && key !in Keys(data[i])
  }

  /** `[row[col] for col in cols]`. */
  function Project(row: Record, cols: seq<string>): (r: Result<seq<PyValue>>)
    ensures r.Ok? <==> forall j :: 0 <= j < |cols| ==> cols[j] in Keys(row)
    ensures r.Ok? ==> (|r.value| == |cols| &&
      forall j :: 0 <= j < |cols| ==> Lookup(row, cols[j]) == Some(r.value[j]))
    ensures r.Err? ==> r.error.KeyError? && r.error.key in cols && r.error.key !in Keys(row)
  {
    if |cols| == 0 then Ok([])
    else
      match Lookup(row, cols[0])
      case None => Err(KeyError(cols[0]))
      case Some(v) =>
        var rest := Project(row, cols[1..]);
        if rest.Err? then
          assert forall j :: 0 <= j < |cols| - 1 ==> cols[1..][j] == cols[j + 1];
          Err(rest.error)
        else
          assert forall j :: 1 <= j < |cols| ==> cols[j] == cols[1..][j - 1];
          Ok([v] + rest.value)
  }

  /** Every record holds every key of the first record. */
  predicate HasKeys(data: seq<Record>) {
    |data| == 0 || AllHave(data, Keys(data[0]))
  }

  /** `[[row[col] for col in cols] for row in data]`, row by row. */
  function Rows(data: seq<Record>, cols: seq<string>): (r: Result<seq<PyValue>>)
    ensures r.Ok? <==> AllHave(data, cols)
    ensures r.Ok? ==> (|r.value| == |data| &&
      forall i :: 0 <= i < |data| ==> Project(data[i], cols).Ok? && r.value[i] == List(Project(data[i], cols).value))
    ensures r.Err? ==> r.error.KeyError? && r.error.key in cols && MissingSomewhere(data, r.error.key)
  {
    if |data| == 0 then Ok([])
    else
      var first := Project(data[0], cols);
      var tail := data[1..];
      AllHaveCons(data, cols);
      if first.Err? then
        assert MissingSomewhere(data, first.error.key) by {
          assert first.error.key !in Keys(data[0]);
        }
        Err(first.error)
      else
        var rest := Rows(tail, cols);
        if rest.Err? then
          assert MissingSomewhere(data, rest.error.key) by {
            var i :| 0 <= i < |tail| && rest.error.key !in Keys(tail[i]);
            assert data[i + 1] == tail[i];
          }
          Err(rest.error)
        else
          var r := [List(first.value)] + rest.value;
          assert forall i :: 1 <= i < |data| ==> data[i] == tail[i - 1] && r[i] == rest.value[i - 1];
          Ok(r)
  }

  /** Every record has the keys exactly when the first record and all the
      later ones have them. */
  lemma AllHaveCons(data: seq<Record>, keys: seq<string>)
    requires |data| > 0
    ensures AllHave(data, keys) <==>
      (forall j :: 0 <= j < |keys| ==> keys[j] in Keys(data[0])) && AllHave(data[1..], keys)
  {
    if (forall j :: 0 <= j < |keys| ==> keys[j] in Keys(data[0])) && AllHave(data[1..], keys) {
      forall i, j | 0 <= i < |data| && 0 <= j < |keys|
        ensures keys[j] in Keys(data[i])
      {
        if i > 0 {
          assert data[i] == data[1..][i - 1];
        }
      }
    }
  }

  /** `[row[key] for row in data]`. */
  function Column(data: seq<Record>, key: string): (r: Result<seq<PyValue>>)
    ensures r.Ok? <==> forall i :: 0 <= i < |data| ==> key in Keys(data[i])
    ensures r.Ok? ==> (|r.value| == |data| &&
      forall i :: 0 <= i < |data| ==> Lookup(data[i], key) == Some(r.value[i]))
    ensures r.Err? ==> r.error == KeyError(key)
  {
    if |data| == 0 then Ok([])
    else
      match Lookup(data[0], key)
      case None => Err(KeyError(key))
      case Some(v) =>
        var rest := Column(data[1..], key);
        if rest.Err? then
          assert forall i :: 0 <= i < |data| - 1 ==> data[1..][i] == data[i + 1];
          rest
        else
          assert forall i :: 1 <= i < |data| ==> data[i] == data[1..][i - 1];
          Ok([v] + rest.value)
  }

  /** The dict the `dict` branch builds by `result[key] = [row[key] for row
      in data]` for each key in turn; the first missing cell raises. */
  function DictColumns(data: seq<Record>, keys: seq<string>): (r: Result<Record>)
    ensures r.Ok? <==> AllHave(data, keys)
    ensures r.Err? ==> r.error.KeyError? && r.error.key in keys && MissingSomewhere(data, r.error.key)
  {
    if |keys| == 0 then Ok([])
    else
      var init := keys[..|keys| - 1];
      var last := keys[|keys| - 1];
      var prefix := DictColumns(data, init);
      if prefix.Err? then
        AllHavePrefix(data, keys);
        prefix
      else
        var column := Column(data, last);
        if column.Err? then
          assert !AllHave(data, keys) by {
            var i :| 0 <= i < |data| && last !in Keys(data[i]);
          }
          Err(column.error)
        else
          assert AllHave(data, keys) by {
            forall i, j | 0 <= i < |data| && 0 <= j < |keys|
              ensures keys[j] in Keys(data[i])
            {
              if j < |keys| - 1 {
                assert keys[j] == init[j];
              }
            }
          }
          Ok(Assign(prefix.value, last, List(column.value)))
  }

  lemma AllHavePrefix(data: seq<Record>, keys: seq<string>)
    requires |keys| > 0
    ensures AllHave(data, keys) ==> AllHave(data, keys[..|keys| - 1])
  {
    if AllHave(data, keys) {
      var init := keys[..|keys| - 1];
      forall i, j | 0 <= i < |data| && 0 <= j < |init|
        ensures init[j] in Keys(data[i])
      {
        assert init[j] == keys[j];
      }
    }
  }

  /** A loop-built dict meets its first missing key where the key-by-key
      definition does. */
  lemma {:induction false} DictColumnsFirstError(data: seq<Record>, keys: seq<string>, k: nat)
    requires k < |keys|
    requires DictColumns(data, keys[..k]).Ok?
    requires Column(data, keys[k]).Err?
    ensures DictColumns(data, keys) == Err(Column(data, keys[k]).error)
  {
    var init := keys[..|keys| - 1];
    if k == |keys| - 1 {
      assert init == keys[..k];
    } else {
      assert init[..k] == keys[..k];
      DictColumnsFirstError(data, init, k);
    }
  }

  /** With distinct keys, the `dict` branch gives one entry per key, in key
      order, holding that key's column. */
  lemma {:induction false} DictColumnsEntries(data: seq<Record>, keys: seq<string>)
    requires forall i, j :: 0 <= i < j < |keys| ==> keys[i] != keys[j]
    requires DictColumns(data, keys).Ok?
    ensures |DictColumns(data, keys).value| == |keys|
    ensures forall j :: 0 <= j < |keys| ==>
      Column(data, keys[j]).Ok? && DictColumns(data, keys).value[j] == Entry(keys[j], List(Column(data, keys[j]).value))
  {
    if |keys| > 0 {
      var init := keys[..|keys| - 1];
      var last := keys[|keys| - 1];
      DictColumnsEntries(data, init);
      var prefix := DictColumns(data, init).value;
      assert last !in Keys(prefix);
      var e := Entry(last, List(Column(data, last).value));
      assert DictColumns(data, keys).value == prefix + [e];
      forall j | 0 <= j < |keys|
        ensures Column(data, keys[j]).Ok? && DictColumns(data, keys).value[j] == Entry(keys[j], List(Column(data, keys[j]).value))
      {
        if j < |keys| - 1 {
          assert keys[j] == init[j];
        }
      }
    }
  }

  /** The orientations `format_output` accepts. */
  predicate Supported(orientation: string) {
    orientation == "records" || orientation == "list" || orientation == "dict" || orientation == "values"
  }

  /** What `format_output(data, orientation)` returns or raises. */
  function Formatted(data: seq<Record>, orientation: string): (r: Result<PyValue>)
    ensures |data| == 0 ==> r == Ok(List([]))
    ensures |data| > 0 && !Supported(orientation) ==>
      r == Err(ValueError("Unsupported orientation: " + orientation))
    ensures |data| > 0 && Supported(orientation) && orientation != "records" ==>
      (r.Ok? <==> HasKeys(data))
    ensures r.Err? && r.error.KeyError? ==>
      r.error.key in Keys(data[0]) && MissingSomewhere(data, r.error.key)
    ensures orientation == "records" ==> (r.Ok? && r.value.List? && |r.value.items| == |data| &&
      forall i :: 0 <= i < |data| ==> r.value.items[i] == Dict(data[i]))
  {
    if |data| == 0 then Ok(List([]))
    else if orientation == "records" then
      Ok(List(seq(|data|, i requires 0 <= i < |data| => Dict(data[i]))))
    else if orientation == "list" then
      var headers := Keys(data[0]);
      var rows := Rows(data, headers);
      if rows.Err? then Err(rows.error)
      else Ok(Dict([Entry("columns", List(Strs(headers))), Entry("data", List(rows.value))]))
    else if orientation == "dict" then
      var result := DictColumns(data, Keys(data[0]));
      if result.Err? then Err(result.error) else Ok(Dict(result.value))
    else if orientation == "values" then
      var headers := Keys(data[0]);
      var rows := Rows(data, headers);
      if rows.Err? then Err(rows.error)
      else Ok(List([List(Strs(headers))] + rows.value))
    else Err(ValueError("Unsupported orientation: " + orientation))
  }

  /** `format_output(data, orientation)`; the `dict` branch fills its result
      one key at a time. */
  method FormatOutput(data: seq<Record>, orientation: string) returns (r: Result<PyValue>)
    ensures r == Formatted(data, orientation)
  {
    if |data| == 0 {
      return Ok(List([]));
    }
    if orientation == "records" {
      r := Ok(List(seq(|data|, i requires 0 <= i < |data| => Dict(data[i]))));
    } else if orientation == "list" {
      var headers := Keys(data[0]);
      var rows := Rows(data, headers);
      if rows.Err? {
        r := Err(rows.error);
      } else {
        r := Ok(Dict([Entry("columns", List(Strs(headers))), Entry("data", List(rows.value))]));
      }
    } else if orientation == "dict" {
      var keys := Keys(data[0]);
      var result: Record := [];
      for k := 0 to |keys|
        invariant DictColumns(data, keys[..k]) == Ok(result)
      {
        var column := Column(data, keys[k]);
        if column.Err? {
          DictColumnsFirstError(data, keys, k);
          return Err(column.error);
        }
        assert keys[..k + 1][..k] == keys[..k];
        result := Assign(result, keys[k], List(column.value));
      }
      assert keys[..|keys|] == keys;
      r := Ok(Dict(result));
    } else if orientation == "values" {
      var headers := Keys(data[0]);
      var rows := Rows(data, headers);
      if rows.Err? {
        r := Err(rows.error);
      } else {
        r := Ok(List([List(Strs(headers))] + rows.value));
      }
    } else {
      r := Err(ValueError("Unsupported orientation: " + orientation));
    }
  }

  /** `v` is a list of one list per record, holding that record's values
      for the first record's keys, in key order. */
  predicate RowMajor(data: seq<Record>, v: PyValue)
    requires |data| > 0
  {
    v.List? && |v.items| == |data| &&
    forall i :: 0 <= i < |data| ==>
      v.items[i].List? && |v.items[i].items| == |data[0]| &&
      forall j :: 0 <= j < |data[0]| ==> Lookup(data[i], data[0][j].key) == Some(v.items[i].items[j])
  }

  /** The `list` orientation: `columns` holds the first record's keys and
      `data` one value row per record, in column order. */
  lemma ListOrientation(data: seq<Record>)
    requires |data| > 0 && HasKeys(data)
    ensures var r := Formatted(data, "list");
      r.Ok? && r.value.Dict? && |r.value.entries| == 2 &&
      r.value.entries[0] == Entry("columns", List(Strs(Keys(data[0])))) &&
      r.value.entries[1].key == "data" && RowMajor(data, r.value.entries[1].value)
  {
    var rows := Rows(data, Keys(data[0]));
    assert rows.Ok?;
  }

  /** The `values` orientation: the header row followed by one value row
      per record, `|data| + 1` rows in all. */
  lemma ValuesOrientation(data: seq<Record>)
    requires |data| > 0 && HasKeys(data)
    ensures var r := Formatted(data, "values");
      r.Ok? && r.value.List? && |r.value.items| == |data| + 1 &&
      r.value.items[0] == List(Strs(Keys(data[0]))) && RowMajor(data, List(r.value.items[1..]))
  {
    var rows := Rows(data, Keys(data[0]));
    assert rows.Ok?;
    assert ([List(Strs(Keys(data[0])))] + rows.value)[1..] == rows.value;
  }

  /** The `dict` orientation: each key of the first record, in order, maps
      to the list of that column's values, one per record. */
  lemma DictOrientation(data: seq<Record>)
    requires |data| > 0 && HasKeys(data) && DistinctKeys(data[0])
    ensures var r := Formatted(data, "dict");
      r.Ok? && r.value.Dict? && Keys(r.value.entries) == Keys(data[0]) &&
      forall j :: 0 <= j < |data[0]| ==>
        r.value.entries[j].value.List? && |r.value.entries[j].value.items| == |data| &&
        forall i :: 0 <= i < |data| ==> Lookup(data[i], data[0][j].key) == Some(r.value.entries[j].value.items[i])
  {
    var keys := Keys(data[0]);
    DictColumnsEntries(data, keys);
  }

}
