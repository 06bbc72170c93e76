/**
 * The JavaScript values the application inspects dynamically: what `JSON.parse`
 * can produce, plus `undefined`. Numbers are integers here.
 */
module JsValues {
  import opened Text

  datatype JsValue =
    | Undefined
    | Null
    | Bool(b: bool)
    | Num(n: int)
    | Str(s: string)
    | Arr(elems: seq<JsValue>)
    | Obj(fields: map<string, JsValue>)

  /** Property access `v[key]`: `undefined` unless `v` is an object holding `key`. */
  function Get(v: JsValue, key: string): JsValue {
    if v.Obj? && key in v.fields then v.fields[key] else Undefined
  }

  /** JavaScript truthiness (section 7.1.2 of ECMA-262). */
  predicate Truthy(v: JsValue) {
    match v
    case Undefined => false
    case Null => false
    case Bool(b) => b
    case Num(n) => n != 0
    case Str(s) => s != []
    case Arr(_) => true
    case Obj(_) => true
  }

  /**
   * Whether `String(v)` throws a TypeError (section 7.1.1.1 of ECMA-262). An object
   * with an own `toString` key holds a non-callable value there, since JSON cannot
   * write a function. `valueOf` then returns the object itself, and no primitive
   * comes out. An array converts its elements through `join`, so it throws when an
   * element that is neither `undefined` nor `null` throws.
   */
  predicate StringThrows(v: JsValue)
    decreases v
  {
    match v
    case Obj(fields) => "toString" in fields
    case Arr(es) => exists i :: 0 <= i < |es| && !es[i].Undefined? && !es[i].Null? && StringThrows(es[i])
    case _ => false
  }

  /** `String(v)` when it does not throw (see `StringThrows`); an array is the comma-join of its elements, holes for `undefined` and `null`. */
  function ToJsString(v: JsValue): string
    decreases v
  {
    match v
    case Undefined => "undefined"
    case Null => "null"
    case Bool(b) => if b then "true" else "false"
    case Num(n) => IntToString(n)
    case Str(s) => s
    case Arr(es) =>
      Join(seq(|es|, i requires 0 <= i < |es| => if es[i].Undefined? || es[i].Null? then "" else ToJsString(es[i])))
    case Obj(_) => "[object Object]"
  }

  /** `Array.prototype.join` with the default separator. */
  function Join(parts: seq<string>): string {
    if |parts| == 0 then ""
    else if |parts| == 1 then parts[0]
    else parts[0] + "," + Join(parts[1..])
  }

  /** `String(v).trim() === ''`. */
  predicate IsBlank(v: JsValue) {
    Trim(ToJsString(v)) == []
  }

  /** The join is blank exactly when there is at most one part and that part is blank. */
  lemma {:induction false} JoinAllSpace(parts: seq<string>)
    ensures AllSpace(Join(parts)) <==> |parts| == 0 || (|parts| == 1 && AllSpace(parts[0]))
  {
    if |parts| >= 2 {
      var j := Join(parts);
      assert j[|parts[0]|] == ',';
    }
  }

  lemma PrintedIntNotSpace(n: int)
    ensures !AllSpace(IntToString(n))
  {
    var s := IntToString(n);
    assert s[0] == '-' || IsDecDigit(s[0]);
  }

  /**
   * Which values `String(..).trim()` turns into the empty string: white-space strings,
   * the empty array, and a one-element array whose element is absent or blank.
   * Numbers (0 included), booleans and objects never are.
   */
  lemma BlankCases(v: JsValue)
    ensures IsBlank(v) <==>
      || (v.Str? && AllSpace(v.s))
      || (v.Arr? && (|v.elems| == 0 ||
           (|v.elems| == 1 && (v.elems[0].Undefined? || v.elems[0].Null? || IsBlank(v.elems[0])))))
  {
    if v.Arr? {
      BlankArray(v);
    } else {
      BlankScalar(v);
    }
  }

  lemma BlankScalar(v: JsValue)
    requires !v.Arr?
    ensures IsBlank(v) <==> v.Str? && AllSpace(v.s)
  {
    TrimEmptyIffAllSpace(ToJsString(v));
    match v
    case Undefined => assert ToJsString(v)[0] == 'u';
    case Null => assert ToJsString(v)[0] == 'n';
    case Bool(b) => assert ToJsString(v)[0] == (if b then 't' else 'f');
    case Num(n) => PrintedIntNotSpace(n);
    case Str(s) =>
    case Obj(_) => assert ToJsString(v)[0] == '[';
  }

  lemma BlankArray(v: JsValue)
    requires v.Arr?
    ensures IsBlank(v) <==> (|v.elems| == 0 ||
      (|v.elems| == 1 && (v.elems[0].Undefined? || v.elems[0].Null? || IsBlank(v.elems[0]))))
  {
    var es := v.elems;
    TrimEmptyIffAllSpace(ToJsString(v));
    var parts := seq(|es|, i requires 0 <= i < |es| => if es[i].Undefined? || es[i].Null? then "" else ToJsString(es[i]));
    assert ToJsString(v) == Join(parts);
    JoinAllSpace(parts);
    if |es| == 1 && !(es[0].Undefined? || es[0].Null?) {
      TrimEmptyIffAllSpace(ToJsString(es[0]));
    }
  }
}
