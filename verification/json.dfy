/** The JavaScript values the handlers see: what `JSON.parse` produces, read
    through property access, truthiness tests and string conversion. */
module Json {
  import opened Options
  import opened Text

  /** A parsed JSON value. Numbers are integers; objects map each key to its value. */
  datatype Value =
    | JNull
    | JBool(b: bool)
    | JNum(n: int)
    | JStr(s: string)
    | JArr(items: seq<Value>)
    | JObj(fields: map<string, Value>)

  /** JavaScript truthiness of a value that may be `undefined` (None):
      `undefined`, `null`, `false`, `0` and the empty string are falsy;
      every array and every object is truthy, even an empty one. */
  predicate Truthy(v: Option<Value>) {
    match v
    case None => false
    case Some(JNull) => false
    case Some(JBool(b)) => b
    case Some(JNum(n)) => n != 0
    case Some(JStr(s)) => s != ""
    case Some(JArr(_)) => true
    case Some(JObj(_)) => true
  }

  /** Exactly five values are falsy; every array and every object, even an
      empty one, is truthy. */
  lemma FalsyValues(v: Option<Value>)
    ensures !Truthy(v) <==> v in {None, Some(JNull), Some(JBool(false)), Some(JNum(0)), Some(JStr(""))}
    ensures Truthy(Some(JArr([]))) && Truthy(Some(JObj(map[])))
  {
  }

  /** Reading property `key` of a non-null value. Only an object has the keys
      the handlers read; any other value yields `undefined`. Reading a property
      of `null` throws, which callers handle before calling this. */
  function Get(v: Value, key: string): (r: Option<Value>)
    ensures r.Some? <==> v.JObj? && key in v.fields
    ensures r.Some? ==> r.value == v.fields[key]
  {
    if v.JObj? && key in v.fields then Some(v.fields[key]) else None
  }

  /** What a plain object inherits from Object.prototype under `key`, as
      string conversion renders it: the prototype itself for "__proto__", a
      native method otherwise. */
  function InheritedMember(key: string): Option<string> {
    if key == "__proto__" then Some("[object Object]")
    else if key == "constructor" then Some("function Object() { [native code] }")
    else if key in {"toString", "toLocaleString", "valueOf", "hasOwnProperty",
                    "isPrototypeOf", "propertyIsEnumerable", "__defineGetter__",
                    "__defineSetter__", "__lookupGetter__", "__lookupSetter__"}
    then Some("function " + key + "() { [native code] }")
    else None
  }

  /** The outcome of a JavaScript property read on an object: its own value,
      a member inherited from Object.prototype, or nothing (`undefined`). */
  datatype Lookup = Own(value: Value) | Inherited(text: string) | Missing

  /** The property read `obj[key]` on a plain object, prototype chain included. */
  function ObjectRead(fields: map<string, Value>, key: string): Lookup {
    if key in fields then Own(fields[key])
    else match InheritedMember(key)
      case Some(t) => Inherited(t)
      case None => Missing
  }

  /** The keys the routes read from a request body or from an explanation. */
  const ReadKeys: set<string> :=
    {"code", "language", "analysisMode", "summary", "complexity", "flowchart", "recommendations"}

  /** For every key the routes read, `Get` is the full property read: none of
      these keys is inherited, so an object lacking it reads as `undefined`. */
  lemma GetIsObjectRead(fields: map<string, Value>, key: string)
    requires key in ReadKeys
    ensures !ObjectRead(fields, key).Inherited?
    ensures Get(JObj(fields), key).None? <==> ObjectRead(fields, key).Missing?
    ensures Get(JObj(fields), key).Some? ==> ObjectRead(fields, key) == Own(Get(JObj(fields), key).value)
  {
  }

  /** Decimal digits of a natural number, most significant first. */
  function Digits(n: nat): (r: string)
    ensures |r| > 0
    ensures forall i :: 0 <= i < |r| ==> '0' <= r[i] <= '9'
    ensures |r| > 1 ==> r[0] != '0'
  {
    if n < 10 then [DigitChar(n)] else Digits(n / 10) + [DigitChar(n % 10)]
  }

  function DigitChar(d: nat): (c: char)
    requires d < 10
    ensures '0' <= c <= '9'
  {
    (d + '0' as int) as char
  }

  /** Reference reading of a string of decimal digits. */
  function DecimalValue(s: string): nat
    requires forall i :: 0 <= i < |s| ==> '0' <= s[i] <= '9'
  {
    if |s| == 0 then 0
    else 10 * DecimalValue(s[..|s| - 1]) + (s[|s| - 1] as int - '0' as int)
  }

  /** Reading back the digits gives the number. */
  lemma {:induction false} DigitsRoundTrip(n: nat)
    ensures DecimalValue(Digits(n)) == n
  {
    var r := Digits(n);
    if n >= 10 {
      DigitsRoundTrip(n / 10);
      assert r[..|r| - 1] == Digits(n / 10);
    }
  }

  /** Converting `v` to a primitive throws a TypeError ("Cannot convert object
      to primitive value"). An object whose own "toString" property hides the
      inherited method does: no JSON value can be called, and the inherited
      `valueOf` returns the object itself, so neither method yields a
      primitive. An array does when one of its elements, at any depth, does,
      because its `join` converts every element that is not null. */
  predicate Unconvertible(v: Value)
    decreases v
  {
    match v
    case JObj(fields) => "toString" in fields
    case JArr(items) => exists i :: 0 <= i < |items| && !items[i].JNull? && Unconvertible(items[i])
    case _ => false
  }

  /** JavaScript's ToString, which `+`, template literals, `join` and property
      keys apply to a non-string operand, or None when it throws. An array is
      its elements joined with "," (a null element contributes nothing); an
      object is "[object Object]". */
  function ToJsString(v: Value): (r: Option<string>)
    ensures r.None? <==> Unconvertible(v)
    ensures v.JStr? ==> r == Some(v.s)
    ensures v.JObj? && !Unconvertible(v) ==> r == Some("[object Object]")
    decreases v
  {
    match v
    case JNull => Some("null")
    case JBool(b) => Some(if b then "true" else "false")
    case JNum(n) => Some(if n < 0 then "-" + Digits(-n) else Digits(n))
    case JStr(s) => Some(s)
    case JArr(items) =>
      var parts := seq(|items|, i requires 0 <= i < |items| =>
        if items[i].JNull? then Some("") else ToJsString(items[i]));
      assert forall i :: 0 <= i < |items| ==> (parts[i].None? <==> !items[i].JNull? && Unconvertible(items[i]));
      if exists i :: 0 <= i < |parts| && parts[i].None? then None
      else Some(Join(seq(|parts|, i requires 0 <= i < |parts| => parts[i].GetOr("")), ","))
    case JObj(fields) => if "toString" in fields then None else Some("[object Object]")
  }

  /** A value that may be `undefined` converts to a string without throwing. */
  predicate Converts(v: Option<Value>) {
    v.None? || !Unconvertible(v.value)
  }

  /** ToString of a value that may be `undefined`, or None when it throws. */
  function ValueString(v: Option<Value>): (r: Option<string>)
    ensures r.Some? <==> Converts(v)
    ensures v.None? ==> r == Some("undefined")
    ensures v.Some? && v.value.JStr? ==> r == Some(v.value.s)
  {
    match v
    case None => Some("undefined")
    case Some(x) => ToJsString(x)
  }
}
