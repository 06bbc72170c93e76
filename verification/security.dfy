/**
 * Input escaping and record validation of the utilities module: `sanitizeInput`,
 * its field-wise lift `sanitizeFormData`, and `validatePropertyData`.
 */
module Security {
  import opened Wrappers
  import opened Text
  import opened JsValues

  /** `s.replace(/c/g, rep)` for a single-character pattern. */
  function ReplaceAll(s: string, c: char, rep: string): string {
    if s == [] then [] else (if s[0] == c then rep else [s[0]]) + ReplaceAll(s[1..], c, rep)
  }

  /** `sanitizeInput`'s replacement chain, in the order it applies the passes: `&` first, `/` last. */
  function ReplaceChain(s: string): string {
    AfterAmp(ReplaceAll(s, '&', "&amp;"))
  }

  /** The passes after the `&` pass. */
  function AfterAmp(s: string): string {
    AfterLt(ReplaceAll(s, '<', "&lt;"))
  }

  /** The passes after the `<` pass. */
  function AfterLt(s: string): string {
    AfterGt(ReplaceAll(s, '>', "&gt;"))
  }

  /** The passes after the `>` pass. */
  function AfterGt(s: string): string {
    AfterQuot(ReplaceAll(s, '"', "&quot;"))
  }

  /** The passes after the `"` pass. */
  function AfterQuot(s: string): string {
    ReplaceAll(ReplaceAll(s, '\'', "&#x27;"), '/', "&#x2F;")
  }

  /** `sanitizeInput`: a falsy input (absent or empty) gives the empty string. */
  function SanitizeInput(input: Option<string>): (r: string)
    ensures input.None? || input.value == [] ==> r == []
    ensures input.Some? ==> |r| >= |input.value|
    ensures forall i :: 0 <= i < |r| ==> !Dangerous(r[i])
  {
    if input.None? || input.value == "" then ""
    else
      ChainIsEscape(input.value);
      EscapeLength(input.value);
      EscapeIsSafe(input.value);
      RemoveAngles(ReplaceChain(input.value))
  }

  /** The characters `sanitizeInput` rewrites. */
  predicate Special(c: char) {
    c == '&' || c == '<' || c == '>' || c == '"' || c == '\'' || c == '/'
  }

  /** The characters that never survive `sanitizeInput`. */
  predicate Dangerous(c: char) {
    c == '<' || c == '>' || c == '"' || c == '\'' || c == '/'
  }

  /** The HTML entity for each special character. */
  function EscapeChar(c: char): string {
    if c == '&' then "&amp;"
    else if c == '<' then "&lt;"
    else if c == '>' then "&gt;"
    else if c == '"' then "&quot;"
    else if c == '\'' then "&#x27;"
    else if c == '/' then "&#x2F;"
    else [c]
  }

  /** Reference definition: every character replaced by its entity, independently. */
  function Escape(s: string): string {
    if s == [] then [] else EscapeChar(s[0]) + Escape(s[1..])
  }

  lemma {:induction false} ReplaceAllConcat(a: string, b: string, c: char, rep: string)
    ensures ReplaceAll(a + b, c, rep) == ReplaceAll(a, c, rep) + ReplaceAll(b, c, rep)
  {
    if a != [] {
      assert (a + b)[1..] == a[1..] + b;
      ReplaceAllConcat(a[1..], b, c, rep);
    } else {
      assert a + b == b;
    }
  }

  lemma {:induction false} RemoveAnglesConcat(a: string, b: string)
    ensures RemoveAngles(a + b) == RemoveAngles(a) + RemoveAngles(b)
  {
    if a != [] {
      assert (a + b)[1..] == a[1..] + b;
      RemoveAnglesConcat(a[1..], b);
    } else {
      assert a + b == b;
    }
  }

  lemma {:induction false} ReplaceAllAbsent(s: string, c: char, rep: string)
    requires c !in s
    ensures ReplaceAll(s, c, rep) == s
  {
    if s != [] {
      ReplaceAllAbsent(s[1..], c, rep);
    }
  }

  lemma ReplaceAllSingle(x: char, c: char, rep: string)
    ensures ReplaceAll([x], c, rep) == if x == c then rep else [x]
  {
    assert [x][1..] == [];
  }

  lemma ReplaceChainConcat(a: string, b: string)
    ensures ReplaceChain(a + b) == ReplaceChain(a) + ReplaceChain(b)
  {
    ReplaceAllConcat(a, b, '&', "&amp;");
    AfterAmpConcat(ReplaceAll(a, '&', "&amp;"), ReplaceAll(b, '&', "&amp;"));
  }

  lemma AfterAmpConcat(a: string, b: string)
    ensures AfterAmp(a + b) == AfterAmp(a) + AfterAmp(b)
  {
    ReplaceAllConcat(a, b, '<', "&lt;");
    AfterLtConcat(ReplaceAll(a, '<', "&lt;"), ReplaceAll(b, '<', "&lt;"));
  }

  lemma AfterLtConcat(a: string, b: string)
    ensures AfterLt(a + b) == AfterLt(a) + AfterLt(b)
  {
    ReplaceAllConcat(a, b, '>', "&gt;");
    AfterGtConcat(ReplaceAll(a, '>', "&gt;"), ReplaceAll(b, '>', "&gt;"));
  }

  lemma AfterGtConcat(a: string, b: string)
    ensures AfterGt(a + b) == AfterGt(a) + AfterGt(b)
  {
    ReplaceAllConcat(a, b, '"', "&quot;");
    var a4, b4 := ReplaceAll(a, '"', "&quot;"), ReplaceAll(b, '"', "&quot;");
    ReplaceAllConcat(a4, b4, '\'', "&#x27;");
    ReplaceAllConcat(ReplaceAll(a4, '\'', "&#x27;"), ReplaceAll(b4, '\'', "&#x27;"), '/', "&#x2F;");
  }

  predicate Safe(s: string) {
    forall i :: 0 <= i < |s| ==> !Dangerous(s[i])
  }

  /** A string without dangerous characters passes the later passes unchanged. */
  lemma AfterPassesFix(s: string)
    requires Safe(s)
    ensures AfterQuot(s) == s && AfterGt(s) == s && AfterLt(s) == s && AfterAmp(s) == s
  {
    ReplaceAllAbsent(s, '<', "&lt;");
    ReplaceAllAbsent(s, '>', "&gt;");
    ReplaceAllAbsent(s, '"', "&quot;");
    ReplaceAllAbsent(s, '\'', "&#x27;");
    ReplaceAllAbsent(s, '/', "&#x2F;");
  }

  lemma ReplaceChainSingle(c: char)
    ensures ReplaceChain([c]) == EscapeChar(c)
  {
    ReplaceAllSingle(c, '&', "&amp;");
    if c == '&' {
      AfterPassesFix(EscapeChar(c));
    } else {
      ReplaceAllSingle(c, '<', "&lt;");
      if c == '<' {
        AfterPassesFix(EscapeChar(c));
      } else {
        ReplaceAllSingle(c, '>', "&gt;");
        if c == '>' {
          AfterPassesFix(EscapeChar(c));
        } else {
          ReplaceAllSingle(c, '"', "&quot;");
          if c == '"' {
            AfterPassesFix(EscapeChar(c));
          } else {
            ReplaceAllSingle(c, '\'', "&#x27;");
            ReplaceAllSingle(c, '/', "&#x2F;");
            if c == '\'' {
              ReplaceAllAbsent(EscapeChar(c), '/', "&#x2F;");
            }
          }
        }
      }
    }
  }

  lemma {:induction false} ReplaceChainIsEscape(s: string)
    ensures ReplaceChain(s) == Escape(s)
  {
    if s == [] {
    } else {
      assert s == [s[0]] + s[1..];
      ReplaceChainConcat([s[0]], s[1..]);
      ReplaceChainSingle(s[0]);
      ReplaceChainIsEscape(s[1..]);
    }
  }

  lemma {:induction false} EscapeIsSafe(s: string)
    ensures forall i :: 0 <= i < |Escape(s)| ==> !Dangerous(Escape(s)[i])
  {
    if s != [] {
      EscapeIsSafe(s[1..]);
      var e := EscapeChar(s[0]);
      assert forall i :: 0 <= i < |e| ==> !Dangerous(e[i]);
    }
  }

  /** The final `[<>]` removal of `sanitizeInput` never has anything left to remove. */
  lemma FinalRemovalIsNoop(s: string)
    ensures RemoveAngles(ReplaceChain(s)) == ReplaceChain(s)
  {
    ReplaceChainIsEscape(s);
    EscapeIsSafe(s);
    RemoveAnglesNoop(ReplaceChain(s));
  }

  lemma ChainIsEscape(s: string)
    ensures RemoveAngles(ReplaceChain(s)) == Escape(s)
  {
    FinalRemovalIsNoop(s);
    ReplaceChainIsEscape(s);
  }

  /** `sanitizeInput` is the per-character entity map. */
  lemma SanitizeIsEscape(s: string)
    ensures SanitizeInput(Some(s)) == Escape(s)
  {
    ChainIsEscape(s);
  }

  /** Escaping never shortens, and lengthens as soon as a special character occurs. */
  lemma {:induction false} EscapeLength(s: string)
    ensures |Escape(s)| >= |s|
    ensures (exists i :: 0 <= i < |s| && Special(s[i])) ==> |Escape(s)| > |s|
  {
    if s != [] {
      EscapeLength(s[1..]);
      if exists i :: 0 <= i < |s| && Special(s[i]) {
        var i :| 0 <= i < |s| && Special(s[i]);
        if i > 0 {
          assert Special(s[1..][i - 1]);
        }
      }
    }
  }

  /** Escaping leaves a string alone exactly when it has no special character. */
  lemma {:induction false} EscapeFixedIff(s: string)
    ensures Escape(s) == s <==> forall i :: 0 <= i < |s| ==> !Special(s[i])
  {
    EscapeLength(s);
    if forall i :: 0 <= i < |s| ==> !Special(s[i]) {
      if s != [] {
        assert forall i :: 0 <= i < |s[1..]| ==> !Special(s[1..][i]) by {
          forall i | 0 <= i < |s[1..]| ensures !Special(s[1..][i]) {
            assert s[1..][i] == s[i + 1];
          }
        }
        EscapeFixedIff(s[1..]);
      }
    }
  }

  predicate HasPrefix(s: string, p: string) {
    |p| <= |s| && s[..|p|] == p
  }

  /** Decodes the six entities `sanitizeInput` writes, left to right. */
  function Unescape(s: string): string
    decreases |s|
  {
    if s == [] then []
    else if HasPrefix(s, "&amp;") then "&" + Unescape(s[5..])
    else if HasPrefix(s, "&lt;") then "<" + Unescape(s[4..])
    else if HasPrefix(s, "&gt;") then ">" + Unescape(s[4..])
    else if HasPrefix(s, "&quot;") then "\"" + Unescape(s[6..])
    else if HasPrefix(s, "&#x27;") then "'" + Unescape(s[6..])
    else if HasPrefix(s, "&#x2F;") then "/" + Unescape(s[6..])
    else [s[0]] + Unescape(s[1..])
  }

  lemma UnescapeStep(c: char, t: string)
    ensures Unescape(EscapeChar(c) + t) == [c] + Unescape(t)
  {
    if c == '&' {
      UnescapeAmp(c, t);
    } else if c == '<' {
      UnescapeLt(c, t);
    } else if c == '>' {
      UnescapeGt(c, t);
    } else if c == '"' {
      UnescapeQuot(c, t);
    } else if c == '\'' {
      UnescapeApos(c, t);
    } else if c == '/' {
      UnescapeSlash(c, t);
    } else {
      var s := [c] + t;
      assert s[0] == c && s[1..] == t;
    }
  }

  lemma UnescapeAmp(c: char, t: string)
    requires c == '&'
    ensures Unescape("&amp;" + t) == [c] + Unescape(t)
  {
    var s := "&amp;" + t;
    assert s[..5] == "&amp;" && s[5..] == t;
    assert s[1] == "&amp;"[1];
  }

  lemma UnescapeLt(c: char, t: string)
    requires c == '<'
    ensures Unescape("&lt;" + t) == [c] + Unescape(t)
  {
    var s := "&lt;" + t;
    assert s[..4] == "&lt;" && s[4..] == t;
    assert s[1] == "&lt;"[1];
  }

  lemma UnescapeGt(c: char, t: string)
    requires c == '>'
    ensures Unescape("&gt;" + t) == [c] + Unescape(t)
  {
    var s := "&gt;" + t;
    assert s[..4] == "&gt;" && s[4..] == t;
    assert s[1] == "&gt;"[1];
  }

  lemma UnescapeQuot(c: char, t: string)
    requires c == '"'
    ensures Unescape("&quot;" + t) == [c] + Unescape(t)
  {
    var s := "&quot;" + t;
    assert s[..6] == "&quot;" && s[6..] == t;
    assert s[1] == "&quot;"[1];
  }

  lemma UnescapeApos(c: char, t: string)
    requires c == '\''
    ensures Unescape("&#x27;" + t) == [c] + Unescape(t)
  {
    var s := "&#x27;" + t;
    assert s[..6] == "&#x27;" && s[6..] == t;
    assert s[1] == "&#x27;"[1];
  }

  lemma UnescapeSlash(c: char, t: string)
    requires c == '/'
    ensures Unescape("&#x2F;" + t) == [c] + Unescape(t)
  {
    var s := "&#x2F;" + t;
    assert s[..6] == "&#x2F;" && s[6..] == t;
    assert s[1] == "&#x2F;"[1];
  }

  /** Escaping loses nothing: decoding the entities gives the input back. */
  lemma {:induction false} UnescapeEscape(s: string)
    ensures Unescape(Escape(s)) == s
  {
    if s != [] {
      UnescapeStep(s[0], Escape(s[1..]));
      UnescapeEscape(s[1..]);
    }
  }

  /**
   * `sanitizeFormData`: every string-valued field of the object is sanitized, every
   * other field is copied as it is.
   */
  function SanitizeFormData(form: map<string, JsValue>): (r: map<string, JsValue>)
    ensures r.Keys == form.Keys
    ensures forall k :: k in form && !form[k].Str? ==> r[k] == form[k]
    ensures forall k :: k in form && form[k].Str? ==> r[k].Str?
  {
    map k | k in form :: if form[k].Str? then Str(SanitizeInput(Some(form[k].s))) else form[k]
  }

  /** Each string field comes out escaped, free of dangerous characters, and decodes back to its input. */
  lemma SanitizeFormDataFields(form: map<string, JsValue>, k: string)
    requires k in form && form[k].Str?
    ensures var out := SanitizeFormData(form)[k].s;
      out == Escape(form[k].s) && Unescape(out) == form[k].s &&
      forall i :: 0 <= i < |out| ==> !Dangerous(out[i])
  {
    SanitizeIsEscape(form[k].s);
    UnescapeEscape(form[k].s);
  }

  /** The fields `validatePropertyData` insists on. */
  const RequiredFields: seq<string> := ["id", "type", "bedrooms", "price", "location", "description"]

  /**
   * One field of `validatePropertyData`: `value !== undefined && value !== null &&
   * String(value).trim() !== ''`, or `None` when `String(value)` throws.
   */
  function FieldTest(value: JsValue): Option<bool> {
    if value.Undefined? || value.Null? then Some(false)
    else if StringThrows(value) then None
    else Some(!IsBlank(value))
  }

  /**
   * `fields.every(test)` for a test that may throw (`None`): the fields in order,
   * stopping at the first one that fails or throws. It throws exactly when some field
   * throws and every field before it passes.
   */
  function EveryField(fields: seq<string>, test: string -> Option<bool>): (r: Option<bool>)
    ensures r == Some(true) <==> forall k :: 0 <= k < |fields| ==> test(fields[k]) == Some(true)
    ensures r.None? <==> exists k :: (0 <= k < |fields| && test(fields[k]).None? &&
      forall j :: 0 <= j < k ==> test(fields[j]) == Some(true))
    decreases |fields|
  {
    if fields == [] then Some(true)
    else
      var rest := EveryField(fields[1..], test);
      assert forall k :: 1 <= k < |fields| ==> fields[1..][k - 1] == fields[k];
      match test(fields[0])
      case None => None
      case Some(ok) =>
        if ok then
          assert rest.None? ==> exists k :: (0 <= k < |fields| && test(fields[k]).None? &&
            forall j :: 0 <= j < k ==> test(fields[j]) == Some(true)) by {
            if rest.None? {
              var k :| (0 <= k < |fields[1..]| && test(fields[1..][k]).None? &&
                forall j :: 0 <= j < k ==> test(fields[1..][j]) == Some(true));
              assert test(fields[k + 1]).None?;
              assert forall j :: 0 <= j < k + 1 ==> test(fields[j]) == Some(true) by {
                forall j | 0 <= j < k + 1 ensures test(fields[j]) == Some(true) {
                  if j > 0 {
                    assert fields[j] == fields[1..][j - 1];
                  }
                }
              }
            }
          }
          rest
        else Some(false)
  }

  /**
   * `validatePropertyData`: `false` for a falsy value or one not of type `object`,
   * otherwise whether every required field passes its test; `None` when that test
   * throws. A value is valid exactly when it is an object (not `null`, not an array,
   * not a primitive) and each required field is filled in; numbers, 0 included,
   * always are. It throws only for an object with a required field whose `String`
   * throws.
   */
  function ValidatePropertyData(v: JsValue): (r: Option<bool>)
    ensures r == Some(true) <==> v.Obj? && forall f :: f in RequiredFields ==> f in v.fields && Filled(v.fields[f])
    ensures r.None? ==> v.Obj? && exists f :: f in RequiredFields && f in v.fields && StringThrows(v.fields[f])
  {
    if !Truthy(v) || !(v.Obj? || v.Arr?) then Some(false)
    else
      RequiredPass(v);
      RequiredThrow(v);
      EveryField(RequiredFields, FieldTests(v))
  }

  /** The field test of `validatePropertyData`, applied to the named field of `v`. */
  function FieldTests(v: JsValue): string -> Option<bool> {
    f => FieldTest(Get(v, f))
  }

  /** Every required field passes exactly for an object whose required fields are all filled in. */
  lemma RequiredPass(v: JsValue)
    ensures EveryField(RequiredFields, FieldTests(v)) == Some(true) <==>
      v.Obj? && forall f :: f in RequiredFields ==> f in v.fields && Filled(v.fields[f])
  {
    var test := FieldTests(v);
    forall x ensures FieldTest(x) == Some(true) <==> Filled(x) {
      FieldTestIff(x);
    }
    assert RequiredFields[0] == "id";
    if EveryField(RequiredFields, test) == Some(true) {
      assert test(RequiredFields[0]) == Some(true);
      forall f | f in RequiredFields ensures FieldTest(Get(v, f)) == Some(true) {
        var k :| 0 <= k < |RequiredFields| && RequiredFields[k] == f;
        assert test(RequiredFields[k]) == Some(true);
      }
    }
  }

  /** The required fields' tests throw only for an object with a required field whose `String` throws. */
  lemma RequiredThrow(v: JsValue)
    ensures EveryField(RequiredFields, FieldTests(v)).None? ==>
      v.Obj? && exists f :: f in RequiredFields && f in v.fields && StringThrows(v.fields[f])
  {
    var test := FieldTests(v);
    if EveryField(RequiredFields, test).None? {
      var k :| (0 <= k < |RequiredFields| && test(RequiredFields[k]).None? &&
        forall j :: 0 <= j < k ==> test(RequiredFields[j]) == Some(true));
      assert RequiredFields[k] in RequiredFields;
    }
  }

  /** For an object holding every required key, validity is the six fields being filled in. */
  lemma RequiredFieldsFilled(v: JsValue)
    requires v.Obj? && forall k :: k in RequiredFields ==> k in v.fields
    ensures IsValid(v) <==>
      Filled(v.fields["id"]) && Filled(v.fields["type"]) && Filled(v.fields["bedrooms"]) &&
      Filled(v.fields["price"]) && Filled(v.fields["location"]) && Filled(v.fields["description"])
  {
    assert "id" in RequiredFields && "type" in RequiredFields && "bedrooms" in RequiredFields;
    assert "price" in RequiredFields && "location" in RequiredFields && "description" in RequiredFields;
  }

  /** The value passes `validatePropertyData` (it returns `true` and does not throw). */
  predicate IsValid(v: JsValue) {
    ValidatePropertyData(v) == Some(true)
  }

  /** A field value that counts as filled in, by the kind of value it is. */
  predicate Filled(value: JsValue) {
    match value
    case Undefined => false
    case Null => false
    case Bool(_) => true
    case Num(_) => true
    case Str(s) => !AllSpace(s)
    case Arr(es) =>
      !StringThrows(value) && (|es| >= 2 || (|es| == 1 && !es[0].Undefined? && !es[0].Null? && !IsBlank(es[0])))
    case Obj(fields) => "toString" !in fields
  }

  /** The field test passes exactly when the value is filled in. */
  lemma FieldTestIff(x: JsValue)
    ensures FieldTest(x) == Some(true) <==> Filled(x)
  {
    if x.Arr? && !StringThrows(x) {
      FieldTestArray(x);
    } else if !x.Arr? && !x.Undefined? && !x.Null? {
      BlankScalar(x);
    }
  }

  lemma FieldTestArray(x: JsValue)
    requires x.Arr? && !StringThrows(x)
    ensures FieldTest(x) == Some(true) <==> Filled(x)
  {
    assert FieldTest(x) == Some(!IsBlank(x));
    BlankArray(x);
    assert Filled(x) <==> !IsBlank(x);
  }
}
