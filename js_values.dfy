/// JavaScript values as the log filter sees them, and the pieces of
/// ECMAScript semantics the filter code leans on: truthiness, the
/// `typeof` operator, ToString, Array.prototype.join, property access
/// and the own enumerable entries of a value.
module JsValues {

  /** A JavaScript computation that completes normally with a value or
      throws a value. */
  datatype Outcome<+T> = Normal(value: T) | Threw(error: Value)

  /** What `value.toString` is on an object: absent (not callable, as on
      `Object.create(null)`), or a callable method and what calling it
      yields. */
  datatype ToStringSlot =
    | NoToString
    | ToStringMethod(result: Outcome<string>)

  /** A JavaScript value. Numbers are integers. `Obj` keeps its own
      enumerable properties in their enumeration order together with the
      text `JSON.stringify` gives for it; `Err` is an `Error` instance;
      `Fn` is a function, told apart by `id`, with its declared arity and
      its source text. */
  datatype Value =
    | Undefined
    | Null
    | Bool(b: bool)
    | Num(n: int)
    | Str(s: string)
    | Arr(items: seq<Value>)
    | Obj(props: seq<(string, Value)>, toStr: ToStringSlot, json: string)
    | Err(name: string, message: string, stack: string, toStr: ToStringSlot)
    | Fn(id: nat, arity: nat, source: string)

  /** `!!v` */
  predicate Truthy(v: Value) {
    match v
    case Undefined => false
    case Null => false
    case Bool(b) => b
    case Num(n) => n != 0
    case Str(s) => s != ""
    case _ => true
  }

  /** The `typeof` operator. */
  function TypeOfOperator(v: Value): string {
    match v
    case Undefined => "undefined"
    case Null => "object"
    case Bool(_) => "boolean"
    case Num(_) => "number"
    case Str(_) => "string"
    case Arr(_) => "object"
    case Obj(_, _, _) => "object"
    case Err(_, _, _, _) => "object"
    case Fn(_, _, _) => "function"
  }

  /** A TypeError raised by the code or by the runtime. The stack text is
      runtime-specific and left empty. */
  function TypeError(message: string): Value {
    Err("TypeError", message, "", ToStringMethod(Normal("TypeError: " + message)))
  }

  // ---------------------------------------------------------------------
  // Numbers as text

  predicate IsDigit(c: char) {
    '0' <= c <= '9'
  }

  function DigitChar(d: nat): (c: char)
    requires d < 10
    ensures IsDigit(c)
  {
    "0123456789"[d]
  }

  function DigitValue(c: char): (d: nat)
    requires IsDigit(c)
    ensures d < 10 && DigitChar(d) == c
  {
    (c as int - '0' as int) as nat
  }

  /** The decimal text of a natural number: only digits, and no leading
      zero unless the number is 0. */
  function DecimalText(n: nat): (r: string)
    ensures |r| > 0 && forall i :: 0 <= i < |r| ==> IsDigit(r[i])
    ensures r[0] == '0' <==> n == 0
    ensures |r| == 1 <==> n < 10
  {
    if n < 10 then [DigitChar(n)] else DecimalText(n / 10) + [DigitChar(n % 10)]
  }

  /** `String(n)` for an integer. */
  function NumberText(n: int): string {
    if n < 0 then "-" + DecimalText(-n) else DecimalText(n)
  }

  /** The value of a run of decimal digits. */
  function DigitsValue(s: string): nat
    requires forall i :: 0 <= i < |s| ==> IsDigit(s[i])
  {
    if s == [] then 0 else DigitsValue(s[..|s| - 1]) * 10 + DigitValue(s[|s| - 1])
  }

  /** Reading the decimal text back gives the number. */
  lemma {:induction false} DigitsValueOfDecimalText(n: nat)
    ensures DigitsValue(DecimalText(n)) == n
  {
    var r := DecimalText(n);
    if n >= 10 {
      DigitsValueOfDecimalText(n / 10);
      assert r[..|r| - 1] == DecimalText(n / 10);
    }
  }

  /** Different numbers have different decimal texts. */
  lemma DecimalTextInjective(a: nat, b: nat)
    requires DecimalText(a) == DecimalText(b)
    ensures a == b
  {
    DigitsValueOfDecimalText(a);
    DigitsValueOfDecimalText(b);
  }

  // ---------------------------------------------------------------------
  // Property keys

  /** A property key after ToPropertyKey: a canonical array index or any
      other name. */
  datatype PropKey = Index(i: nat) | Name(s: string)

  /** The text of a key. */
  function KeyText(k: PropKey): string {
    match k
    case Index(i) => DecimalText(i)
    case Name(s) => s
  }

  /** Whether a string is the canonical text of an array index. */
  predicate IsIndexText(s: string) {
    |s| > 0 && (forall i :: 0 <= i < |s| ==> IsDigit(s[i])) && (s[0] != '0' || |s| == 1)
  }

  /** The key a string names. */
  function CanonicalKey(s: string): (k: PropKey)
    ensures KeyText(k) == s
  {
    if IsIndexText(s) then
      var i := DigitsValue(s);
      DecimalTextOfDigitsValue(s);
      Index(i)
    else Name(s)
  }

  lemma {:induction false} DecimalTextOfDigitsValue(s: string)
    requires IsIndexText(s)
    ensures DecimalText(DigitsValue(s)) == s
  {
    var n := DigitsValue(s);
    var p := s[..|s| - 1];
    if |s| == 1 {
    } else {
      assert IsIndexText(p) by {
        assert p[0] == s[0];
      }
      DecimalTextOfDigitsValue(p);
      LeadingDigitNonZero(p);
      assert n / 10 == DigitsValue(p) && n % 10 == DigitValue(s[|s| - 1]);
      assert s == p + [s[|s| - 1]];
    }
  }

  /** Digits that do not start with '0' denote a positive number. */
  lemma {:induction false} LeadingDigitNonZero(p: string)
    requires |p| > 0 && (forall i :: 0 <= i < |p| ==> IsDigit(p[i])) && p[0] != '0'
    ensures DigitsValue(p) > 0
  {
    if |p| > 1 {
      LeadingDigitNonZero(p[..|p| - 1]);
    }
  }

  /** ToPropertyKey of a number agrees with that of its decimal text:
      `a[2]` and `a["2"]` name the same property. */
  lemma CanonicalKeyOfDecimalText(n: nat)
    ensures CanonicalKey(DecimalText(n)) == Index(n)
  {
    DigitsValueOfDecimalText(n);
  }

  // ---------------------------------------------------------------------
  // Running computations in order, and joining strings

  /** Runs computations in order, as `list.map(f)` does: the first throw
      ends the run, otherwise every result is collected. */
  function Sequence<T>(outs: seq<Outcome<T>>): (r: Outcome<seq<T>>)
    ensures r.Normal? <==> forall i :: 0 <= i < |outs| ==> outs[i].Normal?
    ensures r.Normal? ==> |r.value| == |outs| && forall i :: 0 <= i < |outs| ==> r.value[i] == outs[i].value
    ensures r.Threw? ==> exists k :: 0 <= k < |outs| && outs[k] == Threw(r.error) && forall i :: 0 <= i < k ==> outs[i].Normal?
  {
    if outs == [] then Normal([])
    else
      match outs[0]
      case Threw(e) => Threw(e)
      case Normal(x) =>
        match Sequence(outs[1..])
        case Threw(e) => Threw(e)
        case Normal(xs) => Normal([x] + xs)
  }

  /** Array.prototype.join over strings. */
  function JoinText(ss: seq<string>, sep: string): string {
    if |ss| == 0 then ""
    else if |ss| == 1 then ss[0]
    else JoinText(ss[..|ss| - 1], sep) + sep + ss[|ss| - 1]
  }

  // ---------------------------------------------------------------------
  // ToString

  /** ToString on an object: ToPrimitive calls its `toString`; without
      one, `valueOf` gives back the object itself and the conversion
      fails. */
  function ObjectText(toStr: ToStringSlot): Outcome<string> {
    match toStr
    case NoToString => Threw(TypeError("Cannot convert object to primitive value"))
    case ToStringMethod(result) => result
  }

  /** How Array.prototype.join renders one element: null and undefined as
      the empty string, anything else by ToString. */
  function ElementText(v: Value): Outcome<string>
    decreases v, 2
  {
    if v.Undefined? || v.Null? then Normal("") else JsToString(v)
  }

  /** The ECMAScript ToString conversion, as `String(v)` and template
      literals perform it. Arrays render by joining their elements with
      ",". */
  function JsToString(v: Value): Outcome<string>
    decreases v, 1
  {
    match v
    case Undefined => Normal("undefined")
    case Null => Normal("null")
    case Bool(b) => Normal(if b then "true" else "false")
    case Num(n) => Normal(NumberText(n))
    case Str(s) => Normal(s)
    case Arr(items) =>
      (match Sequence(seq(|items|, i requires 0 <= i < |items| => ElementText(items[i])))
       case Threw(e) => Threw(e)
       case Normal(ss) => Normal(JoinText(ss, ",")))
    case Obj(_, toStr, _) => ObjectText(toStr)
    case Err(_, _, _, toStr) => ObjectText(toStr)
    case Fn(_, _, source) => Normal(source)
  }

  // ---------------------------------------------------------------------
  // Property access

  /** ToPropertyKey: numbers and strings name keys directly, anything
      else through ToString, which may throw. */
  function ToPropertyKey(v: Value): Outcome<PropKey> {
    match v
    case Num(n) => Normal(if n >= 0 then Index(n) else Name(NumberText(n)))
    case Str(s) => Normal(CanonicalKey(s))
    case _ =>
      (match JsToString(v)
       case Threw(e) => Threw(e)
       case Normal(t) => Normal(CanonicalKey(t)))
  }

  /** The value of the first own property called `name`, or undefined. */
  function Lookup(props: seq<(string, Value)>, name: string): Value {
    if props == [] then Undefined
    else if props[0].0 == name then props[0].1
    else Lookup(props[1..], name)
  }

  /** `v[key]` on a value that is not null or undefined (the callers
      guard against those, with `?.` or a truthiness test). Arrays and
      strings have their elements and `length`, functions their `length`,
      errors their `name`, `message` and `stack`, objects their own
      properties. Properties inherited from prototypes are not modelled:
      for booleans and numbers every lookup gives undefined. */
  function GetProp(v: Value, key: PropKey): Value {
    match v
    case Arr(items) =>
      (match key
       case Index(i) => if i < |items| then items[i] else Undefined
       case Name(p) => if p == "length" then Num(|items|) else Undefined)
    case Str(s) =>
      (match key
       case Index(i) => if i < |s| then Str([s[i]]) else Undefined
       case Name(p) => if p == "length" then Num(|s|) else Undefined)
    case Obj(props, _, _) => Lookup(props, KeyText(key))
    case Err(name, message, stack, _) =>
      if key == Name("name") then Str(name)
      else if key == Name("message") then Str(message)
      else if key == Name("stack") then Str(stack)
      else Undefined
    case Fn(_, arity, _) => if key == Name("length") then Num(arity) else Undefined
    case _ => Undefined
  }

  /** `Object.entries(v)`, which is also what an object spread copies:
      the own enumerable string-keyed properties in order. Arrays and
      strings list their indices; booleans, numbers, errors and functions
      have none. */
  function OwnEntries(v: Value): seq<(string, Value)> {
    match v
    case Arr(items) => seq(|items|, i requires 0 <= i < |items| => (DecimalText(i), items[i]))
    case Str(s) => seq(|s|, i requires 0 <= i < |s| => (DecimalText(i), Str([s[i]])))
    case Obj(props, _, _) => props
    case _ => []
  }
}
