/**
 * The search form: a six-field record of select and text values, updated one field
 * per change event, reset to its defaults, and handed to the search on submit.
 */
module SearchForm {
  import opened Wrappers
  import opened Text
  import opened Security

  /** The form record; `kind` holds the `type` field. */
  datatype Criteria = Criteria(
    kind: string,
    bedrooms: string,
    minPrice: string,
    maxPrice: string,
    location: string,
    addedMonth: string)

  /** The `name` attribute of each form control. */
  datatype Field = KindField | BedroomsField | MinPriceField | MaxPriceField | LocationField | AddedMonthField

  function FieldValue(f: Criteria, name: Field): string {
    match name
    case KindField => f.kind
    case BedroomsField => f.bedrooms
    case MinPriceField => f.minPrice
    case MaxPriceField => f.maxPrice
    case LocationField => f.location
    case AddedMonthField => f.addedMonth
  }

  /** The value each control starts from and returns to on reset. */
  function DefaultValue(name: Field): string {
    match name
    case KindField => "any"
    case BedroomsField => "any"
    case MinPriceField => ""
    case MaxPriceField => ""
    case LocationField => ""
    case AddedMonthField => "any"
  }

  const InitialForm: Criteria := Criteria("any", "any", "", "", "", "any")

  lemma InitialFormIsDefaults()
    ensures forall name :: FieldValue(InitialForm, name) == DefaultValue(name)
  {
  }

  /** `handleChange`: the named field takes the new value, sanitized when it is the location. */
  function HandleChange(f: Criteria, name: Field, value: string): (r: Criteria)
    ensures FieldValue(r, name) == if name == LocationField then SanitizeInput(Some(value)) else value
    ensures forall other :: other != name ==> FieldValue(r, other) == FieldValue(f, other)
  {
    match name
    case KindField => f.(kind := value)
    case BedroomsField => f.(bedrooms := value)
    case MinPriceField => f.(minPrice := value)
    case MaxPriceField => f.(maxPrice := value)
    case LocationField => f.(location := SanitizeInput(Some(value)))
    case AddedMonthField => f.(addedMonth := value)
  }

  /** `handleSubmit`: the record goes to the search with its location sanitized once more. */
  function HandleSubmit(f: Criteria): (r: Criteria)
    ensures r.location == Escape(f.location)
    ensures forall name :: name != LocationField ==> FieldValue(r, name) == FieldValue(f, name)
  {
    SanitizeIsEscape(f.location);
    f.(location := SanitizeInput(Some(f.location)))
  }

  /** `handleReset`: every control back at its default, whatever the form held. */
  function HandleReset(f: Criteria): (r: Criteria)
    ensures forall name :: FieldValue(r, name) == DefaultValue(name)
  {
    InitialForm
  }

  /**
   * A location typed into the box reaches the search escaped twice; the second
   * escape shows exactly when the text holds a character `sanitizeInput` rewrites.
   */
  lemma SubmittedLocationEscapedTwice(f: Criteria, value: string)
    ensures HandleSubmit(HandleChange(f, LocationField, value)).location == Escape(Escape(value))
    ensures Escape(Escape(value)) == Escape(value) <==> forall i :: 0 <= i < |value| ==> !Special(value[i])
  {
    SanitizeIsEscape(value);
    EscapeFixedIff(value);
    EscapeFixedIff(Escape(value));
    if exists i :: 0 <= i < |value| && Special(value[i]) {
      EscapeLength(value);
      EscapeHasAmp(value);
    }
  }

  /** Some character of the input is special: the escaped text holds an `&`. */
  lemma {:induction false} EscapeHasAmp(s: string)
    requires exists i :: 0 <= i < |s| && Special(s[i])
    ensures exists j :: 0 <= j < |Escape(s)| && Special(Escape(s)[j])
  {
    var e := EscapeChar(s[0]);
    var rest := Escape(s[1..]);
    assert Escape(s) == e + rest;
    if Special(s[0]) {
      assert Escape(s)[0] == '&';
    } else {
      var i :| 0 <= i < |s| && Special(s[i]);
      assert Special(s[1..][i - 1]);
      EscapeHasAmp(s[1..]);
      var j :| 0 <= j < |rest| && Special(rest[j]);
      assert Escape(s)[|e| + j] == rest[j];
    }
  }

  const KindOptions: seq<string> := ["any", "House", "Flat"]

  const BedroomOptions: seq<string> := ["any", "1", "2", "3", "4", "5"]

  const PriceOptions: seq<string> :=
    ["", "100000", "200000", "300000", "400000", "500000", "600000", "700000", "800000", "900000", "1000000"]

  const MonthNames: seq<string> :=
    ["January", "February", "March", "April", "May", "June", "July",
     "August", "September", "October", "November", "December"]

  const MonthOptions: seq<string> := ["any"] + MonthNames

  /** The values a select control can send; the location box is free text. */
  function Options(name: Field): seq<string>
    requires name != LocationField
  {
    match name
    case KindField => KindOptions
    case BedroomsField => BedroomOptions
    case MinPriceField => PriceOptions
    case MaxPriceField => PriceOptions
    case AddedMonthField => MonthOptions
  }

  /** Every select control holds one of its own options. */
  predicate WellFormed(f: Criteria) {
    forall name :: name != LocationField ==> FieldValue(f, name) in Options(name)
  }

  /** The price list is `''` followed by the multiples of 100000 up to 1000000, in order. */
  lemma PriceOptionsAreSteps()
    ensures |PriceOptions| == 11 && PriceOptions[0] == ""
    ensures forall k :: 1 <= k <= 10 ==> PriceOptions[k] == IntToString(100000 * k)
  {
    forall k | 1 <= k <= 10 ensures PriceOptions[k] == IntToString(100000 * k) {
      FiveZeros(k);
      if k == 10 {
        assert NatToString(10) == NatToString(1) + [DigitChar(0)];
      }
    }
  }

  lemma TimesTen(n: nat)
    requires n >= 1
    ensures NatToString(n * 10) == NatToString(n) + "0"
  {
    assert (n * 10) / 10 == n && (n * 10) % 10 == 0;
  }

  lemma FiveZeros(k: nat)
    requires k >= 1
    ensures NatToString(k * 100000) == NatToString(k) + "00000"
  {
    TimesTen(k);
    TimesTen(k * 10);
    TimesTen(k * 100);
    TimesTen(k * 1000);
    TimesTen(k * 10000);
  }

  /** Each non-empty price option parses to a multiple of 100000 between 100000 and 1000000. */
  lemma PriceOptionParses(o: string)
    requires o in PriceOptions && o != ""
    ensures exists k :: 1 <= k <= 10 && ParseInt(o) == Some(100000 * k)
  {
    PriceOptionsAreSteps();
    var k :| 1 <= k <= 10 && PriceOptions[k] == o;
    ParseIntRoundTrip(100000 * k);
  }

  /** The bedroom list is `'any'` followed by the counts 1 to 5, `'5'` standing for five or more. */
  lemma BedroomOptionsAreCounts()
    ensures |BedroomOptions| == 6 && BedroomOptions[0] == "any"
    ensures forall n :: 1 <= n <= 5 ==> BedroomOptions[n] == IntToString(n) && ParseInt(BedroomOptions[n]) == Some(n)
  {
    forall n | 1 <= n <= 5 ensures ParseInt(BedroomOptions[n]) == Some(n) {
      PrintedCountParses(BedroomOptions[n], n);
    }
  }

  lemma PrintedCountParses(s: string, n: nat)
    requires s == IntToString(n)
    ensures ParseInt(s) == Some(n)
  {
    ParseIntRoundTrip(n);
  }

  /** The month list is `'any'` followed by the twelve month names, none repeated. */
  lemma MonthOptionsAreMonths()
    ensures |MonthOptions| == 13 && MonthOptions[0] == "any" && MonthOptions[1..] == MonthNames
    ensures forall i, j :: 0 <= i < j < |MonthOptions| ==> MonthOptions[i] != MonthOptions[j]
  {
  }

  lemma InitialFormWellFormed()
    ensures WellFormed(InitialForm)
  {
    assert "any" in KindOptions && "any" in BedroomOptions && "" in PriceOptions && "any" in MonthOptions;
  }

  /** Choosing an option of a select, or typing into the location box, keeps the form well formed. */
  lemma ChangeKeepsWellFormed(f: Criteria, name: Field, value: string)
    requires WellFormed(f)
    requires name == LocationField || value in Options(name)
    ensures WellFormed(HandleChange(f, name, value))
  {
  }

  lemma SubmitKeepsWellFormed(f: Criteria)
    requires WellFormed(f)
    ensures WellFormed(HandleSubmit(f))
  {
  }

  /** Typing `keys` into the location box one keystroke at a time, each appended to the box's value. */
  function TypeIntoLocation(f: Criteria, keys: string): Criteria
    decreases |keys|
  {
    if keys == [] then f
    else TypeIntoLocation(HandleChange(f, LocationField, f.location + [keys[0]]), keys[1..])
  }

  const AmpB: string := "&b"
  const EscapedAmpB: string := "&amp;b"
  const ReescapedAmpB: string := "&amp;amp;b"

  /**
   * As written, every keystroke re-escapes the text already in the box: typing `&b`
   * leaves `&amp;amp;b` in it, and what reaches the search no longer decodes to `&b`.
   */
  lemma KeystrokesReescape()
    ensures TypeIntoLocation(InitialForm, AmpB).location == ReescapedAmpB
    ensures Unescape(HandleSubmit(TypeIntoLocation(InitialForm, AmpB)).location) != AmpB
  {
    assert AmpB == ['&', 'b'];
    TypedAmpB(InitialForm);
    var typed := TypeIntoLocation(InitialForm, AmpB).location;
    UnescapeEscape(typed);
    assert HandleSubmit(TypeIntoLocation(InitialForm, AmpB)).location == Escape(typed);
    assert |typed| != |AmpB|;
  }

  /** Typing `&` then `b` into an empty box. */
  lemma TypedAmpB(f: Criteria)
    requires f.location == ""
    ensures TypeIntoLocation(f, ['&', 'b']).location == ReescapedAmpB
  {
    TwoKeystrokes(f, '&', 'b');
    assert f.location + ['&'] == "&";
    EscapeAmp();
    EscapeAmpB();
    assert Escape(f.location + ['&']) + ['b'] == EscapedAmpB;
  }

  lemma TwoKeystrokes(f: Criteria, a: char, b: char)
    ensures TypeIntoLocation(f, [a, b]).location == Escape(Escape(f.location + [a]) + [b])
  {
    var keys := [a, b];
    TypeStep(f, keys);
    var f1 := f.(location := Escape(f.location + [a]));
    TypeStep(f1, keys[1..]);
    assert keys[1..][1..] == [];
  }

  /** One keystroke: the box's text plus the key, escaped. */
  lemma TypeStep(f: Criteria, keys: string)
    requires keys != []
    ensures TypeIntoLocation(f, keys) == TypeIntoLocation(f.(location := Escape(f.location + [keys[0]])), keys[1..])
  {
    SanitizeIsEscape(f.location + [keys[0]]);
  }

  lemma EscapeAmp()
    ensures Escape("&") == "&amp;"
  {
    assert Escape("&") == EscapeChar('&') + Escape([]);
  }

  /** Escaping `&amp;b` escapes its ampersand once more. */
  lemma EscapeAmpB()
    ensures Escape(EscapedAmpB) == ReescapedAmpB
  {
    var tail := EscapedAmpB[1..];
    EscapeFixedIff(tail);
    assert Escape(EscapedAmpB) == EscapeChar('&') + Escape(tail);
  }

  /** The change handler with the location kept as typed; escaping is left to the submit. */
  function HandleChangeVerbatim(f: Criteria, name: Field, value: string): (r: Criteria)
    ensures FieldValue(r, name) == value
    ensures forall other :: other != name ==> FieldValue(r, other) == FieldValue(f, other)
  {
    match name
    case KindField => f.(kind := value)
    case BedroomsField => f.(bedrooms := value)
    case MinPriceField => f.(minPrice := value)
    case MaxPriceField => f.(maxPrice := value)
    case LocationField => f.(location := value)
    case AddedMonthField => f.(addedMonth := value)
  }

  function TypeIntoLocationVerbatim(f: Criteria, keys: string): Criteria
    decreases |keys|
  {
    if keys == [] then f
    else TypeIntoLocationVerbatim(HandleChangeVerbatim(f, LocationField, f.location + [keys[0]]), keys[1..])
  }

  /** With the verbatim handler the box shows what was typed and nothing else changes. */
  lemma {:induction false} VerbatimTypingShowsKeys(f: Criteria, keys: string)
    ensures TypeIntoLocationVerbatim(f, keys) == f.(location := f.location + keys)
    decreases |keys|
  {
    if keys != [] {
      var f1 := HandleChangeVerbatim(f, LocationField, f.location + [keys[0]]);
      VerbatimTypingShowsKeys(f1, keys[1..]);
      assert f.location + [keys[0]] + keys[1..] == f.location + keys;
    }
  }

  /** The submitted location is then escaped exactly once: it decodes back to the typed text. */
  lemma SubmitEscapesOnce(keys: string)
    ensures Unescape(HandleSubmit(TypeIntoLocationVerbatim(InitialForm, keys)).location) == keys
  {
    VerbatimTypingShowsKeys(InitialForm, keys);
    assert InitialForm.location + keys == keys;
    UnescapeEscape(keys);
  }
}
