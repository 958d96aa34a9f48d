/** The pure helpers of the rate detail dialog: the label shown for a raw
    column name, the two column classifiers, the choice of widget for one
    field, and the list of fields the dialog displays. React state and
    rendering are not modelled; a field's view is the `FieldView` chosen. */
module RateDetailModal {
  import opened Strings
  import opened Sequences

  // ---------------------------------------------------------------------
  // normalizeFieldName
  // ---------------------------------------------------------------------

  /** `word.charAt(0).toUpperCase() + word.slice(1).toLowerCase()`. */
  function Capitalize(word: string): (r: string)
    ensures |r| == |word|
    ensures |word| > 0 ==> r[0] == UpperChar(word[0]) && r[1..] == Lower(word[1..])
  {
    if |word| == 0 then "" else [UpperChar(word[0])] + Lower(word[1..])
  }

  /** Capitalizing never adds a character that is not a letter. */
  lemma CapitalizeAvoids(word: string, c: char)
    requires !IsAsciiUpper(c) && !IsAsciiLower(c) && c !in word
    ensures c !in Capitalize(word)
  {
    var r := Capitalize(word);
    forall i | 0 <= i < |r|
      ensures r[i] != c
    {
      CaseMapKeepsNonLetters(word[i], c);
      if i > 0 {
        assert r[i] == Lower(word[1..])[i - 1] == LowerChar(word[i]);
      }
    }
  }

  /** Each piece of a split, capitalized. */
  function CapitalizeAll(words: seq<string>): (r: seq<string>)
    ensures |r| == |words|
    ensures forall i :: 0 <= i < |words| ==> r[i] == Capitalize(words[i])
  {
    seq(|words|, i requires 0 <= i < |words| => Capitalize(words[i]))
  }

  lemma CapitalizeAllAvoids(words: seq<string>, c: char)
    requires !IsAsciiUpper(c) && !IsAsciiLower(c)
    requires forall i :: 0 <= i < |words| ==> c !in words[i]
    ensures forall i :: 0 <= i < |words| ==> c !in CapitalizeAll(words)[i]
  {
    forall i | 0 <= i < |words|
      ensures c !in CapitalizeAll(words)[i]
    {
      CapitalizeAvoids(words[i], c);
    }
  }

  /** `normalizeFieldName(fieldName)`: the `_`-separated segments of the
      name, each capitalized, joined by single spaces. */
  function NormalizeFieldName(fieldName: string): (shown: string)
    ensures '_' !in shown
    ensures |shown| == |fieldName|
  {
    var segments := Split(fieldName, '_');
    var words := CapitalizeAll(segments);
    CapitalizeAllAvoids(segments, '_');
    JoinAvoids(words, ' ', '_');
    JoinLength(words, ' ', segments, '_');
    JoinSplit(fieldName, '_');
    Join(words, ' ')
  }

  /** For a name without spaces, the words of the label are the name's
      segments, one to one and in order, each capitalized. */
  lemma NormalizedWords(fieldName: string)
    requires ' ' !in fieldName
    ensures Split(NormalizeFieldName(fieldName), ' ') == CapitalizeAll(Split(fieldName, '_'))
  {
    var segments := Split(fieldName, '_');
    SplitAvoids(fieldName, '_', ' ');
    CapitalizeAllAvoids(segments, ' ');
    SplitJoin(CapitalizeAll(segments), ' ');
  }

  // ---------------------------------------------------------------------
  // field classifiers
  // ---------------------------------------------------------------------

  /** The JavaScript values a rate record's fields can hold. */
  datatype JsValue =
    | JsUndefined
    | JsNull
    | JsBool(b: bool)
    | JsNumber(n: real)
    | JsString(s: string)
    | JsObject

  /** JavaScript truthiness (`NaN` is not modelled). */
  predicate Truthy(v: JsValue) {
    match v
    case JsUndefined => false
    case JsNull => false
    case JsBool(b) => b
    case JsNumber(n) => n != 0.0
    case JsString(s) => s != ""
    case JsObject => true
  }

  /** The column-name fragments that mark a numeric column. */
  predicate HasNumericName(fieldName: string) {
    Includes(fieldName, "RATE") || Includes(fieldName, "MINIMUM") || Includes(fieldName, "MAXIMUM") ||
    Includes(fieldName, "AMOUNT") || Includes(fieldName, "TAX")
  }

  /** `isNumericField(fieldName, value)`. */
  predicate IsNumericField(fieldName: string, value: JsValue) {
    HasNumericName(fieldName) && value.JsNumber?
  }

  /** `isDateField(fieldName)`. */
  predicate IsDateField(fieldName: string) {
    Includes(fieldName, "DATE") || Includes(fieldName, "CREATED") || Includes(fieldName, "UPDATED")
  }

  /** The fragments `isNumericField` and `isDateField` look for, in the
      order they are tested. */
  const NumericKeywords: seq<string> := ["RATE", "MINIMUM", "MAXIMUM", "AMOUNT", "TAX"]
  const DateKeywords: seq<string> := ["DATE", "CREATED", "UPDATED"]

  /** One of `keywords` occurs somewhere in `fieldName`. */
  ghost predicate HasKeyword(fieldName: string, keywords: seq<string>) {
    exists k, i :: 0 <= k < |keywords| && OccursAt(fieldName, keywords[k], i)
  }

  /** A field is numeric exactly when its value is a number and one of the
      five fragments occurs in its name. */
  lemma NumericFieldIff(fieldName: string, value: JsValue)
    ensures IsNumericField(fieldName, value) <==> value.JsNumber? && HasKeyword(fieldName, NumericKeywords)
  {
    var ks := NumericKeywords;
    if HasNumericName(fieldName) {
      var k := if Includes(fieldName, ks[0]) then 0 else if Includes(fieldName, ks[1]) then 1
               else if Includes(fieldName, ks[2]) then 2 else if Includes(fieldName, ks[3]) then 3 else 4;
      assert Includes(fieldName, ks[k]);
      var i :| OccursAt(fieldName, ks[k], i);
    }
    if HasKeyword(fieldName, ks) {
      var k, i :| 0 <= k < |ks| && OccursAt(fieldName, ks[k], i);
      assert Includes(fieldName, ks[k]);
      assert k == 0 || k == 1 || k == 2 || k == 3 || k == 4;
    }
  }

  /** A field is a date field exactly when one of the three fragments
      occurs in its name. */
  lemma DateFieldIff(fieldName: string)
    ensures IsDateField(fieldName) <==> HasKeyword(fieldName, DateKeywords)
  {
    var ks := DateKeywords;
    if IsDateField(fieldName) {
      var k := if Includes(fieldName, ks[0]) then 0 else if Includes(fieldName, ks[1]) then 1 else 2;
      assert Includes(fieldName, ks[k]);
      var i :| OccursAt(fieldName, ks[k], i);
    }
    if HasKeyword(fieldName, ks) {
      var k, i :| 0 <= k < |ks| && OccursAt(fieldName, ks[k], i);
      assert Includes(fieldName, ks[k]);
      assert k == 0 || k == 1 || k == 2;
    }
  }

  // ---------------------------------------------------------------------
  // renderFieldValue
  // ---------------------------------------------------------------------

  datatype InputKind = NumberInput | DateInput | TextInput

  /** What the dialog shows for one field: an input while editing, or a
      percentage, a plain number, a locale date, the value as text, or
      "N/A". */
  datatype FieldView =
    | Editor(kind: InputKind)
    | Percentage
    | PlainNumber
    | LocaleDate
    | ValueText
    | NotAvailable

  /** `renderFieldValue(fieldName, value)` with the dialog's editing flag:
      every field but GEOCODE is editable while editing, the input kind
      following the classifiers (numeric first); a number whose lower-cased
      name holds "rate" is shown as a percentage. */
  function RenderFieldValue(isEditing: bool, fieldName: string, value: JsValue): (view: FieldView)
    ensures view.Editor? <==> isEditing && fieldName != "GEOCODE"
    ensures view == Editor(NumberInput) <==> view.Editor? && IsNumericField(fieldName, value)
    ensures view == Editor(DateInput) <==>
      view.Editor? && !IsNumericField(fieldName, value) && IsDateField(fieldName)
    ensures view == Percentage <==>
      !view.Editor? && IsNumericField(fieldName, value) && Includes(Lower(fieldName), "rate")
    ensures view == PlainNumber <==>
      !view.Editor? && IsNumericField(fieldName, value) && !Includes(Lower(fieldName), "rate")
    ensures view == LocaleDate <==>
      !view.Editor? && !IsNumericField(fieldName, value) && IsDateField(fieldName) && Truthy(value)
    ensures view == NotAvailable <==>
      !view.Editor? && (value == JsNull || value == JsUndefined || value == JsString(""))
  {
    if isEditing && fieldName != "GEOCODE" then
      if IsNumericField(fieldName, value) then Editor(NumberInput)
      else if IsDateField(fieldName) then Editor(DateInput)
      else Editor(TextInput)
    else if IsNumericField(fieldName, value) then
      if Includes(Lower(fieldName), "rate") then Percentage else PlainNumber
    else if IsDateField(fieldName) && Truthy(value) then LocaleDate
    else if value != JsNull && value != JsUndefined && value != JsString("") then ValueText
    else NotAvailable
  }

  /** The geocode identifies the rate and is never editable. */
  lemma GeocodeNeverEditable(isEditing: bool, value: JsValue)
    ensures !RenderFieldValue(isEditing, "GEOCODE", value).Editor?
  {
  }

  /** Outside editing, a numeric value in a column whose name holds RATE is
      always shown as a percentage: the display test on the lower-cased
      name agrees with the classifier's upper-case test. */
  lemma RateColumnsShowAsPercentage(fieldName: string, n: real)
    requires Includes(fieldName, "RATE")
    ensures RenderFieldValue(false, fieldName, JsNumber(n)) == Percentage
  {
    IncludesLower(fieldName, "RATE");
    assert Lower("RATE") == "rate";
  }

  /** A numeric value under a date-like name is still a number input. */
  lemma NumericBeforeDate(fieldName: string, n: real)
    requires HasNumericName(fieldName) && IsDateField(fieldName) && fieldName != "GEOCODE"
    ensures RenderFieldValue(true, fieldName, JsNumber(n)) == Editor(NumberInput)
  {
  }

  // ---------------------------------------------------------------------
  // renderAllFields
  // ---------------------------------------------------------------------

  /** `getExcludedFields()`: the internal tracking fields. */
  const ExcludedFields: seq<string> := ["createdAt", "updatedAt"]

  /** One entry of `Object.entries(record)`. */
  datatype Field = Field(key: string, value: JsValue)

  /** Whether `renderAllFields` shows an entry: its key is not one of the
      excluded tracking fields. */
  predicate Displayed(f: Field)
    ensures Displayed(f) <==> f.key != "createdAt" && f.key != "updatedAt"
  {
    f.key !in ExcludedFields
  }

  /** The entries `renderAllFields` shows, in the record's order. */
  function DisplayedEntries(entries: seq<Field>): (shown: seq<Field>)
    ensures IsSubsequence(shown, entries)
  {
    Filter(entries, Displayed)
  }

  /** A field is shown exactly when it is in the record and is neither
      `createdAt` nor `updatedAt`. */
  lemma DisplayedEntriesMembers(entries: seq<Field>, f: Field)
    ensures f in DisplayedEntries(entries) <==> f in entries && f.key != "createdAt" && f.key != "updatedAt"
  {
    FilterMember(entries, Displayed, f);
  }

  /** A record without tracking fields is shown whole. */
  lemma DisplayedEntriesAll(entries: seq<Field>)
    requires forall i :: 0 <= i < |entries| ==> entries[i].key != "createdAt" && entries[i].key != "updatedAt"
    ensures DisplayedEntries(entries) == entries
  {
    FilterKeepsAll(entries, Displayed);
  }

}
